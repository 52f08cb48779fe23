/** The header strip both the enrollment and the admission handler apply to the
    captured image before decoding it: `imagen.replace(/^data:image\/\w+;base64,/, '')`.
    The regular expression is anchored and not global, so it removes at most one
    header, and only from the front. */
module DataUrl {

  const Prefix := "data:image/"
  const Suffix := ";base64,"

  /** The class `\w` of a JavaScript regular expression without the `u` flag. */
  predicate IsWordChar(c: char) {
    ('a' <= c <= 'z') || ('A' <= c <= 'Z') || ('0' <= c <= '9') || c == '_'
  }

  /** What `\w+` can match: one or more word characters. */
  predicate IsWord(w: string) {
    |w| > 0 && forall i :: 0 <= i < |w| ==> IsWordChar(w[i])
  }

  /** A data-URL header with media subtype `w`. */
  function Header(w: string): string {
    Prefix + w + Suffix
  }

  /** Length of the longest run of word characters at the front of `s`:
      how far the greedy `\w+` reaches. */
  function WordRun(s: string): (n: nat)
    ensures n <= |s|
    ensures forall i :: 0 <= i < n ==> IsWordChar(s[i])
    ensures n < |s| ==> !IsWordChar(s[n])
  {
    if s == [] || !IsWordChar(s[0]) then 0 else 1 + WordRun(s[1..])
  }

  /** The image payload with its data-URL header removed. Whatever is removed
      is a header; the other direction is StripRemovesHeader. */
  function StripHeader(s: string): (r: string)
    ensures r == s || exists w :: IsWord(w) && s == Header(w) + r
  {
    if |s| < |Prefix| || s[..|Prefix|] != Prefix then s
    else
      var rest := s[|Prefix|..];
      var n := WordRun(rest);
      if n == 0 || |rest| - n < |Suffix| || rest[n..n + |Suffix|] != Suffix then s
      else
        var w, r := rest[..n], rest[n + |Suffix|..];
        assert IsWord(w);
        assert s == Header(w) + r by {
          assert rest == w + Suffix + r by {
            assert rest == rest[..n] + rest[n..n + |Suffix|] + rest[n + |Suffix|..];
          }
          assert s == Prefix + rest;
        }
        r
  }

  /** `\w+` stops exactly at the end of a word followed by a non-word character. */
  lemma {:induction false} WordRunOfWord(w: string, u: string)
    requires IsWord(w)
    requires u == [] || !IsWordChar(u[0])
    ensures WordRun(w + u) == |w|
  {
    if |w| > 1 {
      assert (w + u)[1..] == w[1..] + u;
      WordRunOfWord(w[1..], u);
    } else {
      assert (w + u)[1..] == u;
    }
  }

  /** Every data-URL image header at the front is removed, and only it. */
  lemma StripRemovesHeader(w: string, t: string)
    requires IsWord(w)
    ensures StripHeader(Header(w) + t) == t
  {
    var s := Header(w) + t;
    var rest := w + Suffix + t;
    assert s == Prefix + rest;
    assert s[..|Prefix|] == Prefix;
    assert s[|Prefix|..] == rest;
    WordRunOfWord(w, Suffix + t);
    assert w + (Suffix + t) == rest;
    assert rest[|w|..|w| + |Suffix|] == Suffix;
    assert rest[|w| + |Suffix|..] == t;
  }

  /** A string that does not start with an image data-URL header is left as it is. */
  lemma StripKeepsHeaderless(s: string)
    requires forall w, t :: IsWord(w) ==> s != Header(w) + t
    ensures StripHeader(s) == s
  {
  }
}
