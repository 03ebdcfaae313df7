/** The string operations of Python that the modelled code relies on. */
module Text {

  /** `str.isspace` for one character. */
  predicate IsSpace(c: char)
  {
    var n := c as int;
    || 9 <= n <= 13 || 28 <= n <= 32 || n == 0x85 || n == 0xA0 || n == 0x1680 || 0x2000 <= n <= 0x200A
    || n == 0x2028 || n == 0x2029 || n == 0x202F || n == 0x205F || n == 0x3000
  }

  /** `str.strip()`. */
  function Strip(s: string): string
  {
    if s == "" then ""
    else if IsSpace(s[0]) then Strip(s[1..])
    else if IsSpace(s[|s| - 1]) then Strip(s[..|s| - 1])
    else s
  }

  /** Nothing left to strip. */
  predicate Trimmed(s: string) {
    s == "" || (!IsSpace(s[0]) && !IsSpace(s[|s| - 1]))
  }

  lemma {:induction false} StripTrims(s: string)
    ensures Trimmed(Strip(s)) && (Trimmed(s) ==> Strip(s) == s)
    ensures forall c :: !IsSpace(c) && c in s ==> c in Strip(s)
    ensures forall c :: c in Strip(s) ==> c in s
  {
    if s == "" {
    } else if IsSpace(s[0]) {
      StripTrims(s[1..]);
      assert s == [s[0]] + s[1..];
    } else if IsSpace(s[|s| - 1]) {
      StripTrims(s[..|s| - 1]);
      assert s == s[..|s| - 1] + [s[|s| - 1]];
    }
  }

  predicate Blank(s: string) {
    forall k | 0 <= k < |s| :: IsSpace(s[k])
  }

  /** Stripping cuts blanks off both ends and nothing else. */
  lemma {:induction false} StripCutsBlanks(s: string) returns (i: nat, j: nat)
    ensures i <= j <= |s| && Strip(s) == s[i..j] && Blank(s[..i]) && Blank(s[j..])
  {
    hide IsSpace;
    if s == "" {
      i, j := 0, 0;
    } else if IsSpace(s[0]) {
      i, j := StripCutsBlanks(s[1..]);
      assert s[1..][i..j] == s[i + 1..j + 1] && s[1..][j..] == s[j + 1..];
      assert s[..i + 1] == [s[0]] + s[1..][..i];
      i, j := i + 1, j + 1;
    } else if IsSpace(s[|s| - 1]) {
      var front := s[..|s| - 1];
      i, j := StripCutsBlanks(front);
      assert front[i..j] == s[i..j] && front[..i] == s[..i];
      assert s[j..] == front[j..] + [s[|s| - 1]];
    } else {
      i, j := 0, |s|;
    }
  }

  /** Blanks around a trimmed text do not matter. */
  lemma {:induction false} StripPadded(before: string, s: string, behind: string)
    requires Blank(before) && Blank(behind) && Trimmed(s)
    ensures Strip(before + s + behind) == s
    decreases |before| + |behind|
  {
    var all := before + s + behind;
    hide IsSpace;
    if before != "" {
      assert all[0] == before[0] && all[1..] == before[1..] + s + behind;
      StripPadded(before[1..], s, behind);
    } else if behind != "" {
      var n := |behind| - 1;
      assert all[|all| - 1] == behind[n] && all[..|all| - 1] == before + s + behind[..n];
      StripPadded(before, s, behind[..n]);
      if s == "" {
        BlankStripsAway(all);
      } else {
        assert all[0] == s[0];
      }
    } else {
      assert all == s;
      StripTrims(s);
    }
  }

  lemma {:induction false} BlankStripsAway(s: string)
    requires Blank(s)
    ensures Strip(s) == ""
  {
    hide IsSpace;
    if s != "" { BlankStripsAway(s[1..]); }
  }

  /** Position of the first `c`, or the length when there is none. */
  function IndexOf(c: char, s: string): (n: nat)
    ensures n <= |s| && c !in s[..n] && (n < |s| ==> s[n] == c)
    ensures n == |s| <==> c !in s
  {
    if s == "" || s[0] == c then 0 else 1 + IndexOf(c, s[1..])
  }

  /** Position of the last `c`, or the length when there is none. */
  function LastIndexOf(c: char, s: string): (n: nat)
    ensures n <= |s| && (n < |s| ==> s[n] == c && c !in s[n + 1..])
    ensures n == |s| <==> c !in s
  {
    if s == "" then 0
    else if s[|s| - 1] == c then |s| - 1
    else
      var n := LastIndexOf(c, s[..|s| - 1]);
      if n == |s| - 1 then |s| else n
  }

  lemma AbsentAfter(c: char, s: string, from: nat)
    requires from <= |s| && c !in s[from..]
    ensures forall k | from <= k < |s| :: s[k] != c
  {
    assert forall k | from <= k < |s| :: s[from..][k - from] == s[k];
  }

  lemma AbsentBefore(c: char, s: string, to: nat)
    requires to <= |s| && c !in s[..to]
    ensures forall k | 0 <= k < to :: s[k] != c
  {
    assert forall k | 0 <= k < to :: s[..to][k] == s[k];
  }

  lemma LastIndexUnique(c: char, s: string, i: nat)
    requires i < |s| && s[i] == c && c !in s[i + 1..]
    ensures LastIndexOf(c, s) == i
  {
    assert c in s;
    AbsentAfter(c, s, i + 1);
    AbsentAfter(c, s, LastIndexOf(c, s) + 1);
  }

  lemma FirstIndexUnique(c: char, s: string, i: nat)
    requires i < |s| && s[i] == c && c !in s[..i]
    ensures IndexOf(c, s) == i
  {
    assert c in s;
    AbsentBefore(c, s, i);
    AbsentBefore(c, s, IndexOf(c, s));
  }

  /** `s.replace(c, t)` for a one-character pattern. */
  function Replace(s: string, c: char, t: string): string
  {
    if s == "" then "" else (if s[0] == c then t else [s[0]]) + Replace(s[1..], c, t)
  }

  lemma {:induction false} ReplaceConcat(a: string, b: string, c: char, t: string)
    ensures Replace(a + b, c, t) == Replace(a, c, t) + Replace(b, c, t)
  {
    if a == "" {
      assert a + b == b;
    } else {
      ReplaceConcat(a[1..], b, c, t);
      assert (a + b)[1..] == a[1..] + b;
    }
  }
}
