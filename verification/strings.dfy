/** Python string helpers used by the speech backend: `str.strip()` and
    joining words with single spaces. */
module Strings {

  /** Python's `str.isspace()` for one character: the Unicode white-space
      characters that `str.strip()` with no argument removes. */
  predicate IsSpace(c: char) {
    || c == ' ' || c == '\t' || c == '\n' || c == '\r'
    || c == '\U{000B}' || c == '\U{000C}'
    || ('\U{001C}' <= c <= '\U{001F}')
    || c == '\U{0085}' || c == '\U{00A0}' || c == '\U{1680}'
    || ('\U{2000}' <= c <= '\U{200A}')
    || c == '\U{2028}' || c == '\U{2029}' || c == '\U{202F}'
    || c == '\U{205F}' || c == '\U{3000}'
  }

  /** Every character of `s` is white space. */
  predicate AllSpace(s: string) {
    forall i :: 0 <= i < |s| ==> IsSpace(s[i])
  }

  /** `s` neither starts nor ends with white space. */
  predicate Stripped(s: string) {
    s == [] || (!IsSpace(s[0]) && !IsSpace(s[|s| - 1]))
  }

  /** `str.lstrip()`: drop the leading white space. */
  function TrimStart(s: string): (r: string)
    ensures |r| <= |s| && r == s[|s| - |r|..]
    ensures AllSpace(s[..|s| - |r|])
    ensures r == [] || !IsSpace(r[0])
    decreases |s|
  {
    if |s| > 0 && IsSpace(s[0]) then TrimStart(s[1..]) else s
  }

  /** `str.rstrip()`: drop the trailing white space. */
  function TrimEnd(s: string): (r: string)
    ensures |r| <= |s| && r == s[..|r|]
    ensures AllSpace(s[|r|..])
    ensures r == [] || !IsSpace(r[|r| - 1])
    decreases |s|
  {
    if |s| > 0 && IsSpace(s[|s| - 1]) then TrimEnd(s[..|s| - 1]) else s
  }

  /** Python's `str.strip()`: the longest middle part of `s` that neither
      starts nor ends with white space, with only white space around it. */
  function Strip(s: string): (r: string)
    ensures Stripped(r)
    ensures |r| <= |s|
    ensures r == [] <==> AllSpace(s)
  {
    var t := TrimStart(s);
    var r := TrimEnd(t);
    assert r == [] ==> AllSpace(s) by {
      if r == [] {
        assert s == s[..|s| - |t|] + t;
        assert AllSpace(t[|r|..]);
      }
    }
    r
  }

  lemma {:induction false} TrimStartSpacePrefix(w: string, t: string)
    requires AllSpace(w)
    ensures TrimStart(w + t) == TrimStart(t)
    decreases |w|
  {
    if |w| > 0 {
      assert (w + t)[1..] == w[1..] + t;
      TrimStartSpacePrefix(w[1..], t);
    } else {
      assert w + t == t;
    }
  }

  lemma {:induction false} TrimEndSpaceSuffix(t: string, w: string)
    requires AllSpace(w)
    ensures TrimEnd(t + w) == TrimEnd(t)
    decreases |w|
  {
    if |w| > 0 {
      assert (t + w)[..|t + w| - 1] == t + w[..|w| - 1];
      TrimEndSpaceSuffix(t, w[..|w| - 1]);
    } else {
      assert t + w == t;
    }
  }

  /** `strip` is the inverse of padding with white space: whatever white space
      surrounds a stripped string, `strip` recovers exactly that string. */
  lemma StripUnique(w1: string, m: string, w2: string)
    requires AllSpace(w1) && AllSpace(w2) && Stripped(m)
    ensures Strip(w1 + m + w2) == m
  {
    assert w1 + m + w2 == w1 + (m + w2);
    TrimStartSpacePrefix(w1, m + w2);
    if m == [] {
      assert m + w2 == w2;
      assert TrimStart(w2) == [];
    } else {
      assert TrimStart(m + w2) == m + w2;
      TrimEndSpaceSuffix(m, w2);
      assert TrimEnd(m) == m;
    }
  }

  /** `strip` is idempotent. */
  lemma StripIdempotent(s: string)
    ensures Strip(Strip(s)) == Strip(s)
  {
    var m := Strip(s);
    assert TrimStart(m) == m;
    assert TrimEnd(m) == m;
  }

  /** `" ".join(ps)`: the pieces separated by single spaces. */
  function Join(ps: seq<string>): string
    decreases |ps|
  {
    if |ps| == 0 then ""
    else if |ps| == 1 then ps[0]
    else Join(ps[..|ps| - 1]) + " " + ps[|ps| - 1]
  }

  /** Every piece is a non-empty stripped word group. */
  predicate NonEmptyStripped(ps: seq<string>) {
    forall i :: 0 <= i < |ps| ==> ps[i] != [] && Stripped(ps[i])
  }

  /** Joining non-empty stripped pieces gives a stripped string that starts
      with the first piece and ends with the last one. */
  lemma {:induction false} JoinStripped(ps: seq<string>)
    requires NonEmptyStripped(ps)
    ensures Stripped(Join(ps))
    ensures |ps| > 0 ==> Join(ps) != [] && Join(ps)[0] == ps[0][0]
    ensures |ps| > 0 ==> Join(ps)[|Join(ps)| - 1] == ps[|ps| - 1][|ps[|ps| - 1]| - 1]
    decreases |ps|
  {
    if |ps| > 1 {
      var init := ps[..|ps| - 1];
      JoinStripped(init);
      assert init[0] == ps[0];
    }
  }
}
