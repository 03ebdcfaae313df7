/**
  The tokenizer of `tools/wait_tool.py` against its regular expression: on every string
  `Tokenize` gives what `re.findall(r"\.[^.\[]+|\[\-?\d+\]", s)` means, the leftmost, longest,
  non-overlapping matches.
*/
module JsonPathTokens {
  import opened JsonPath

  /** A match of `\.[^.\[]+`. */
  predicate DotToken(t: string) {
    |t| >= 2 && t[0] == '.' && forall k | 1 <= k < |t| :: t[k] != '.' && t[k] != '['
  }

  /** A match of `\[\-?\d+\]`. */
  predicate BracketToken(t: string) {
    && |t| >= 3 && t[0] == '[' && t[|t| - 1] == ']'
    && var from := if t[1] == '-' then 2 else 1;
       from < |t| - 1 && forall k | from <= k < |t| - 1 :: '0' <= t[k] <= '9'
  }

  ghost predicate MatchAt(s: string, i: int, n: int) {
    0 <= i < i + n <= |s| && (DotToken(s[i..i + n]) || BracketToken(s[i..i + n]))
  }

  ghost predicate LongestAt(s: string, i: int, n: int) {
    MatchAt(s, i, n) && forall m | MatchAt(s, i, m) :: m <= n
  }

  ghost predicate NoMatchAt(s: string, i: int) {
    forall m :: !MatchAt(s, i, m)
  }

  /** The first match starts at `i` and is `n` long; the other tokens are those of what follows it. */
  ghost predicate FirstMatch(s: string, i: int, n: int) {
    LongestAt(s, i, n) && forall j | j < i :: NoMatchAt(s, j)
  }

  ghost predicate Findall(s: string, tokens: seq<string>)
    decreases |s|
  {
    if tokens == [] then forall i :: NoMatchAt(s, i)
    else exists i, n | 0 <= i < i + n <= |s| ::
      FirstMatch(s, i, n) && tokens[0] == s[i..i + n] && Findall(s[i + n..], tokens[1..])
  }

  // ----- What the tokenizer measures at the start of a string ---------------------------------

  lemma {:induction false} KeyRunIs(s: string, k: nat)
    ensures k < KeyRun(s) ==> s[k] != '.' && s[k] != '['
    ensures KeyRun(s) < |s| ==> s[KeyRun(s)] == '.' || s[KeyRun(s)] == '['
  {
    if s != "" && s[0] != '.' && s[0] != '[' { KeyRunIs(s[1..], if k > 0 then k - 1 else 0); }
  }

  lemma {:induction false} DigitRunIs(s: string)
    ensures DigitRun(s) < |s| ==> !IsDigit(s[DigitRun(s)])
  {
    if s != "" && IsDigit(s[0]) { DigitRunIs(s[1..]); }
  }

  lemma DotStart(s: string)
    requires s != "" && s[0] == '.'
    ensures
      var n := KeyRun(s[1..]);
      if n > 0 then LongestAt(s, 0, 1 + n) else NoMatchAt(s, 0)
  {
    var n := KeyRun(s[1..]);
    forall m | MatchAt(s, 0, m) ensures n > 0 && m <= 1 + n {
      DotMatchIsShort(s, m);
    }
    if n > 0 {
      var t := s[0..1 + n];
      forall k | 1 <= k < |t| ensures t[k] != '.' && t[k] != '[' {
        KeyRunIs(s[1..], k - 1);
        assert t[k] == s[1..][k - 1];
      }
      assert DotToken(t);
    }
  }

  lemma {:induction false} RunOfKeyCharacters(s: string, n: nat)
    requires n <= |s| && forall k | 0 <= k < n :: s[k] != '.' && s[k] != '['
    ensures KeyRun(s) >= n
  {
    if n > 0 { RunOfKeyCharacters(s[1..], n - 1); }
  }

  lemma DotMatchIsShort(s: string, m: int)
    requires s != "" && s[0] == '.' && MatchAt(s, 0, m)
    ensures KeyRun(s[1..]) > 0 && m <= 1 + KeyRun(s[1..])
  {
    var t, key := s[0..m], s[1..];
    assert t[0] == s[0] && DotToken(t);
    forall k | 0 <= k < m - 1 ensures key[k] != '.' && key[k] != '[' { assert key[k] == t[k + 1]; }
    RunOfKeyCharacters(key, m - 1);
  }

  lemma BracketStart(s: string)
    requires s != "" && s[0] == '['
    ensures if BracketLength(s) > 0 then LongestAt(s, 0, BracketLength(s)) else NoMatchAt(s, 0)
  {
    var n := BracketLength(s);
    forall m | MatchAt(s, 0, m) ensures m == n {
      BracketMatchIs(s, m);
    }
    if n > 0 {
      BracketIsMatch(s);
    }
  }

  lemma BracketIsMatch(s: string)
    requires s != "" && s[0] == '[' && BracketLength(s) > 0
    ensures MatchAt(s, 0, BracketLength(s))
  {
    var n, from := BracketLength(s), SignLength(s);
    var t := s[0..n];
    forall k | from <= k < n - 1 ensures '0' <= t[k] <= '9' {
      assert t[k] == s[from..][k - from];
    }
    assert t[1] == s[1] && BracketToken(t);
  }

  lemma BracketMatchIs(s: string, m: int)
    requires s != "" && s[0] == '[' && MatchAt(s, 0, m)
    ensures m == BracketLength(s)
  {
    var t, from := s[0..m], SignLength(s);
    assert t[0] == s[0] && t[1] == s[1] && BracketToken(t);
    var digits := s[from..];
    forall k | 0 <= k < m - 1 - from ensures IsDigit(digits[k]) { assert digits[k] == t[from + k]; }
    assert digits[m - 1 - from] == t[m - 1] == ']';
    RunOfDigits(digits, m - 1 - from);
  }

  lemma {:induction false} RunOfDigits(s: string, n: nat)
    requires n < |s| && !IsDigit(s[n]) && forall k | 0 <= k < n :: IsDigit(s[k])
    ensures DigitRun(s) == n
  {
    if n > 0 { RunOfDigits(s[1..], n - 1); }
  }

  lemma OtherStart(s: string)
    requires s == "" || (s[0] != '.' && s[0] != '[')
    ensures NoMatchAt(s, 0)
  {
    forall m ensures !MatchAt(s, 0, m) {
      if 0 < m <= |s| { assert s[0..m][0] == s[0]; }
    }
  }

  // ----- Moving along the string ------------------------------------------------------------------

  lemma MatchShifts(s: string, n: nat, i: int, m: int)
    requires n <= |s| && i >= 0
    ensures MatchAt(s[n..], i, m) <==> MatchAt(s, i + n, m)
  {
    hide DotToken, BracketToken;
    if 0 <= i < i + m <= |s| - n { assert s[n..][i..i + m] == s[i + n..i + n + m]; }
  }

  lemma NoMatchShifts(s: string, n: nat, i: int)
    requires n <= |s| && i >= 0
    ensures NoMatchAt(s[n..], i) <==> NoMatchAt(s, i + n)
  {
    hide MatchAt;
    var tail, p := s[n..], i + n;
    if NoMatchAt(tail, i) {
      forall m ensures !MatchAt(s, p, m) { MatchShifts(s, n, i, m); }
    }
    if NoMatchAt(s, p) {
      forall m ensures !MatchAt(tail, i, m) { MatchShifts(s, n, i, m); }
    }
  }

  lemma NoMatchOutside(s: string, i: int)
    requires i < 0 || i >= |s|
    ensures NoMatchAt(s, i)
  {
  }

  lemma LongestShifts(s: string, n: nat, i: int, m: int)
    requires n <= |s| && i >= 0 && LongestAt(s[n..], i, m)
    ensures LongestAt(s, i + n, m)
  {
    hide MatchAt;
    var p := i + n;
    MatchShifts(s, n, i, m);
    forall k | MatchAt(s, p, k) ensures k <= m { MatchShifts(s, n, i, k); }
  }

  /** Positions before the first match stay without one when a matchless first character is put in front. */
  lemma NoMatchesInFront(s: string, i: int)
    requires s != "" && NoMatchAt(s, 0) && forall j | j < i :: NoMatchAt(s[1..], j)
    ensures forall j | j < i + 1 :: NoMatchAt(s, j)
  {
    hide NoMatchAt;
    forall j | j < i + 1 ensures NoMatchAt(s, j) {
      if j < 0 {
        NoMatchOutside(s, j);
      } else if j > 0 {
        assert NoMatchAt(s[1..], j - 1);
        NoMatchShifts(s, 1, j - 1);
      }
    }
  }

  /** Nothing matches at the first character, so it is passed over. */
  lemma FindallSkips(s: string, tokens: seq<string>)
    requires s != "" && NoMatchAt(s, 0) && Findall(s[1..], tokens)
    ensures Findall(s, tokens)
  {
    hide LongestAt, NoMatchAt;
    if tokens == [] {
      forall i ensures NoMatchAt(s, i) { NoMatchesInFront(s, i); }
    } else {
      var i, n := FirstToken(s[1..], tokens);
      FirstMatchInFront(s, i, n);
      assert s[i + 1..i + 1 + n] == s[1..][i..i + n] && s[1..][i + n..] == s[i + 1 + n..];
      hide Findall, FirstMatch;
      TakenFrom(s, i + 1, n, tokens);
    }
  }

  lemma FirstMatchInFront(s: string, i: int, n: int)
    requires s != "" && NoMatchAt(s, 0) && i >= 0 && FirstMatch(s[1..], i, n)
    ensures FirstMatch(s, i + 1, n)
  {
    hide LongestAt, NoMatchAt;
    LongestShifts(s, 1, i, n);
    NoMatchesInFront(s, i);
  }

  lemma FirstToken(s: string, tokens: seq<string>) returns (i: int, n: int)
    requires Findall(s, tokens) && tokens != []
    ensures 0 <= i < i + n <= |s| && FirstMatch(s, i, n) && tokens[0] == s[i..i + n] && Findall(s[i + n..], tokens[1..])
  {
    hide FirstMatch;
    i, n :| 0 <= i < i + n <= |s| && FirstMatch(s, i, n) && tokens[0] == s[i..i + n] && Findall(s[i + n..], tokens[1..]);
  }

  lemma TakenFrom(s: string, i: int, n: int, tokens: seq<string>)
    requires tokens != [] && 0 <= i < i + n <= |s| && FirstMatch(s, i, n)
    requires tokens[0] == s[i..i + n] && Findall(s[i + n..], tokens[1..])
    ensures Findall(s, tokens)
  {
    hide FirstMatch;
  }

  lemma FindallTakes(s: string, n: nat, tokens: seq<string>)
    requires 0 < n <= |s| && LongestAt(s, 0, n) && Findall(s[n..], tokens)
    ensures Findall(s, [s[..n]] + tokens)
  {
    hide LongestAt, NoMatchAt;
    forall j | j < 0 ensures NoMatchAt(s, j) { NoMatchOutside(s, j); }
    assert FirstMatch(s, 0, n);
    var all := [s[..n]] + tokens;
    assert all[1..] == tokens && all[0] == s[0..0 + n] && s[0 + n..] == s[n..];
  }

  /** On every string the tokenizer gives exactly the findall matches. */
  lemma {:induction false} TokenizeIsFindall(s: string)
    ensures Findall(s, Tokenize(s))
    decreases |s|
  {
    hide LongestAt, NoMatchAt, Findall, KeyRun, BracketLength;
    if s == "" {
      NothingInEmpty();
    } else if s[0] == '.' {
      DotStart(s);
      var n := KeyRun(s[1..]);
      if n > 0 {
        TokenizeIsFindall(s[1 + n..]);
        FindallTakes(s, 1 + n, Tokenize(s[1 + n..]));
      } else {
        TokenizeIsFindall(s[1..]);
        FindallSkips(s, Tokenize(s[1..]));
      }
    } else if s[0] == '[' {
      BracketStart(s);
      var n := BracketLength(s);
      if n > 0 {
        TokenizeIsFindall(s[n..]);
        FindallTakes(s, n, Tokenize(s[n..]));
      } else {
        TokenizeIsFindall(s[1..]);
        FindallSkips(s, Tokenize(s[1..]));
      }
    } else {
      OtherStart(s);
      TokenizeIsFindall(s[1..]);
      FindallSkips(s, Tokenize(s[1..]));
    }
  }

  lemma NothingInEmpty()
    ensures Findall("", [])
  {
    forall i ensures NoMatchAt("", i) { NoMatchOutside("", i); }
  }

  lemma EmptyIffNoMatch(s: string, tokens: seq<string>)
    requires Findall(s, tokens)
    ensures tokens == [] <==> forall i :: NoMatchAt(s, i)
  {
    hide MatchAt;
    if tokens != [] {
      var i, n := FirstToken(s, tokens);
      assert MatchAt(s, i, n);
      assert !NoMatchAt(s, i);
    }
  }

  lemma FirstMatchIsUnique(s: string, i: int, n: int, j: int, m: int)
    requires FirstMatch(s, i, n) && FirstMatch(s, j, m)
    ensures i == j && n == m
  {
    hide MatchAt;
    assert MatchAt(s, i, n) && MatchAt(s, j, m);
    assert !NoMatchAt(s, i) && !NoMatchAt(s, j);
  }

  /** The findall reading determines the tokens. */
  lemma {:induction false} FindallIsUnique(s: string, a: seq<string>, b: seq<string>)
    requires Findall(s, a) && Findall(s, b)
    ensures a == b
    decreases |s|
  {
    EmptyIffNoMatch(s, a);
    EmptyIffNoMatch(s, b);
    if a != [] {
      hide Findall, FirstMatch, NoMatchAt;
      var i, n := FirstToken(s, a);
      var j, m := FirstToken(s, b);
      FirstMatchIsUnique(s, i, n, j, m);
      FindallIsUnique(s[i + n..], a[1..], b[1..]);
      assert a == [a[0]] + a[1..] && b == [b[0]] + b[1..];
    }
  }
}
