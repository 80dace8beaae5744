/** The class-level font table `Character.OFFSETS`: a map from each supported
    one-character string to the unscaled `(x, y)` offsets of its lit pixels. */
module Font {
  import opened Results
  import opened Geometry

  /** A font table, keyed by one-character strings as the Python dict is. */
  type FontTable = map<string, seq<Point>>

  /** `n` consecutive characters starting at code point `lo`. */
  function CodeRange(lo: nat, n: nat): (s: string)
    requires lo + n <= 0xD800
    ensures |s| == n
    ensures forall i :: 0 <= i < n ==> s[i] as int == lo + i
  {
    seq(n, i requires 0 <= i < n => (lo + i) as char)
  }

  /** The 66 supported symbols in the order the table lists them:
      A-Z, a-z, the digits 1-9 then 0, and `.`, `,`, `:`, `°`. */
  const Alphabet: string :=
    CodeRange('A' as nat, 26) + CodeRange('a' as nat, 26) + CodeRange('1' as nat, 9)
    + ['0', '.', ',', ':', '\U{00B0}']

  /** The keys of a table built from the symbols of `s`. */
  function KeysOf(s: string): set<string> {
    set c | c in s :: [c]
  }

  /** The table as the repository ships it: every glyph is still unauthored,
      so every entry is the empty list. */
  const SourceFont: FontTable := map k | k in KeysOf(Alphabet) :: []

  /** `OFFSETS[key]`: the entry, or the KeyError a dict raises for a missing key. */
  function Lookup(font: FontTable, key: string): (r: Result<seq<Point>>)
    ensures r.Ok? <==> key in font
    ensures r.Ok? ==> r.value == font[key]
    ensures r.Err? ==> r.error == KeyError(key)
  {
    if key in font then Ok(font[key]) else Err(KeyError(key))
  }

  ghost predicate Distinct(s: string) {
    forall i, j :: 0 <= i < j < |s| ==> s[i] != s[j]
  }

  /** No symbol of the alphabet is listed twice. */
  lemma AlphabetDistinct()
    ensures |Alphabet| == 66
    ensures Distinct(Alphabet)
  {
  }

  /** A string of distinct symbols yields as many keys as it has symbols. */
  lemma {:induction false} KeysOfCardinality(s: string)
    requires Distinct(s)
    ensures |KeysOf(s)| == |s|
  {
    if s != [] {
      var rest := s[1..];
      assert Distinct(rest) by {
        forall i, j | 0 <= i < j < |rest| ensures rest[i] != rest[j] {
          assert rest[i] == s[i + 1] && rest[j] == s[j + 1];
        }
      }
      KeysOfCardinality(rest);
      assert KeysOf(s) == {[s[0]]} + KeysOf(rest) by {
        forall k | k in KeysOf(s) ensures k in {[s[0]]} + KeysOf(rest) {
          var c :| c in s && k == [c];
          if c != s[0] {
            var i :| 0 <= i < |s| && s[i] == c;
            assert rest[i - 1] == c;
          }
        }
      }
      assert [s[0]] !in KeysOf(rest) by {
        forall i | 0 <= i < |rest| ensures rest[i] != s[0] {
          assert rest[i] == s[i + 1];
        }
      }
    }
  }

  /** The shipped table has exactly the 66 one-symbol keys of the alphabet, and
      every entry is empty: looking up any other string fails, with no fallback. */
  lemma SourceFontShape()
    ensures |SourceFont| == 66
    ensures forall k :: k in SourceFont <==> |k| == 1 && k[0] in Alphabet
    ensures forall k :: k in SourceFont ==> SourceFont[k] == []
  {
    AlphabetDistinct();
    KeysOfCardinality(Alphabet);
    assert SourceFont.Keys == KeysOf(Alphabet);
    forall k ensures k in SourceFont <==> |k| == 1 && k[0] in Alphabet {
      if |k| == 1 && k[0] in Alphabet {
        assert k == [k[0]];
      }
    }
  }
}
