/**
  The small JSONPath of `tools/wait_tool.py` (`_jsonpath`): a regex tokenizer and a walk
  over the tokens, with a separate branch for expressions without a leading dot.

  `Tokenize` is `re.findall(r"\.[^.\[]+|\[\-?\d+\]", expr)` for ASCII digits.
*/
module JsonPath {

  datatype Json = Object(fields: map<string, Json>) | List(items: seq<Json>) | Scalar(text: string)

  /** The value, or which of the three lookups failed (KeyError style, wrong type, IndexError). */
  datatype Result = Found(value: Json) | KeyMissing(key: string) | NotAList | IndexOutOfRange

  // ----- Tokenizer -----------------------------------------------------------------------

  /** Length of the longest prefix matching `[^.\[]*`. */
  function KeyRun(s: string): (n: nat)
    ensures n <= |s|
  {
    if s == [] || s[0] == '.' || s[0] == '[' then 0 else 1 + KeyRun(s[1..])
  }

  predicate IsDigit(c: char) { '0' <= c <= '9' }

  function DigitRun(s: string): (n: nat)
    ensures n <= |s|
    ensures forall i | 0 <= i < n :: IsDigit(s[i])
  {
    if s == [] || !IsDigit(s[0]) then 0 else 1 + DigitRun(s[1..])
  }

  function SignLength(s: string): nat {
    if |s| > 1 && s[1] == '-' then 2 else 1
  }

  /** Length of the match of `\[\-?\d+\]` at the start of `s`, or 0. */
  function BracketLength(s: string): (n: nat)
    requires |s| > 0 && s[0] == '['
    ensures n <= |s|
    ensures n > 0 ==> n >= 3 && s[n - 1] == ']'
  {
    var k := SignLength(s);
    var d := DigitRun(s[k..]);
    if d > 0 && k + d < |s| && s[k + d] == ']' then k + d + 1 else 0
  }

  function Tokenize(s: string): seq<string>
  {
    if s == [] then []
    else if s[0] == '.' && KeyRun(s[1..]) > 0 then
      var n := 1 + KeyRun(s[1..]);
      [s[..n]] + Tokenize(s[n..])
    else if s[0] == '[' && BracketLength(s) > 0 then
      [s[..BracketLength(s)]] + Tokenize(s[BracketLength(s)..])
    else Tokenize(s[1..])
  }

  // ----- Evaluator -----------------------------------------------------------------------------

  function DigitValue(c: char): int {
    c as int - '0' as int
  }

  function ParseNat(s: string): int
  {
    if s == [] then 0 else ParseNat(s[..|s| - 1]) * 10 + DigitValue(s[|s| - 1])
  }

  function ParseInt(s: string): int {
    if |s| > 0 && s[0] == '-' then -ParseNat(s[1..]) else ParseNat(s)
  }

  function LookupKey(cur: Json, key: string): Result {
    if cur.Object? && key in cur.fields then Found(cur.fields[key]) else KeyMissing(key)
  }

  /** Python indexing: negative indices count from the end. */
  function LookupIndex(cur: Json, index: int): Result {
    if !cur.List? then NotAList
    else if 0 <= index < |cur.items| then Found(cur.items[index])
    else if -|cur.items| <= index < 0 then Found(cur.items[|cur.items| + index])
    else IndexOutOfRange
  }

  function LookupToken(cur: Json, token: string): Result
  {
    if token != "" && token[0] == '.' then LookupKey(cur, token[1..])
    else if |token| >= 2 && token[0] == '[' then LookupIndex(cur, ParseInt(token[1..|token| - 1]))
    else Found(cur)
  }

  function WalkTokens(cur: Json, tokens: seq<string>): Result
    decreases tokens
  {
    if tokens == [] then Found(cur)
    else match LookupToken(cur, tokens[0])
      case Found(next) => WalkTokens(next, tokens[1..])
      case failure => failure
  }

  function IndexOfDot(s: string): (n: nat)
    ensures n <= |s|
    ensures n < |s| ==> s[n] == '.'
    ensures '.' !in s[..n]
  {
    if s == [] || s[0] == '.' then 0 else 1 + IndexOfDot(s[1..])
  }

  /** `expr.partition(".")[2]`. */
  function AfterDot(s: string): string {
    if IndexOfDot(s) < |s| then s[IndexOfDot(s) + 1..] else ""
  }

  function Evaluate(obj: Json, expr: string): Result
  {
    if expr != "" && expr[0] == '.' then WalkTokens(obj, Tokenize(expr))
    else
      var head := expr[..IndexOfDot(expr)];
      var tokens := Tokenize("." + AfterDot(expr));
      if head == "" then WalkTokens(obj, tokens)
      else match LookupKey(obj, head)
        case Found(cur) => WalkTokens(cur, tokens)
        case failure => failure
  }

  /** `_jsonpath` as written: a cursor moved along the tokens. */
  method JsonPath(obj: Json, expr: string) returns (r: Result)
    ensures r == Evaluate(obj, expr)
  {
    var cur := obj;
    var tokens := Tokenize(expr);
    if expr == "" || expr[0] != '.' {
      var head := expr[..IndexOfDot(expr)];
      if head != "" {
        if !cur.Object? || head !in cur.fields { return KeyMissing(head); }
        cur := cur.fields[head];
      }
      tokens := Tokenize("." + AfterDot(expr));
    }
    var i := 0;
    while i < |tokens|
      invariant 0 <= i <= |tokens|
      invariant Evaluate(obj, expr) == WalkTokens(cur, tokens[i..])
    {
      var tok := tokens[i];
      assert tokens[i..][0] == tok && tokens[i..][1..] == tokens[i + 1..];
      if tok != "" && tok[0] == '.' {
        var key := tok[1..];
        if !cur.Object? || key !in cur.fields { return KeyMissing(key); }
        cur := cur.fields[key];
      } else if |tok| >= 2 && tok[0] == '[' {
        var idx := ParseInt(tok[1..|tok| - 1]);
        if !cur.List? { return NotAList; }
        if idx < 0 { idx := idx + |cur.items|; }
        if idx < 0 || idx >= |cur.items| { return IndexOutOfRange; }
        cur := cur.items[idx];
      }
      i := i + 1;
    }
    return Found(cur);
  }

  // ----- Paths and their printed forms ---------------------------------------------------------

  datatype Segment = Key(key: string) | Index(index: int)

  /** Keys the tokenizer can carry: non-empty, without `.` and `[`. */
  predicate ValidPath(path: seq<Segment>) {
    forall i | 0 <= i < |path| && path[i].Key? :: path[i].key != "" && KeyRun(path[i].key) == |path[i].key|
  }

  function DigitChar(d: nat): char
    requires d < 10
  {
    "0123456789"[d]
  }

  function PrintNat(n: nat): string
  {
    (if n < 10 then "" else PrintNat(n / 10)) + [DigitChar(n % 10)]
  }

  function PrintInt(i: int): string {
    if i < 0 then "-" + PrintNat(-i) else PrintNat(i)
  }

  function PrintSegment(s: Segment): string {
    match s
    case Key(key) => "." + key
    case Index(i) => "[" + PrintInt(i) + "]"
  }

  function Print(path: seq<Segment>): string
  {
    if path == [] then "" else PrintSegment(path[0]) + Print(path[1..])
  }

  function PrintedTokens(path: seq<Segment>): seq<string>
  {
    if path == [] then [] else [PrintSegment(path[0])] + PrintedTokens(path[1..])
  }

  function LookupSegment(cur: Json, s: Segment): Result {
    match s
    case Key(key) => LookupKey(cur, key)
    case Index(i) => LookupIndex(cur, i)
  }

  /** The reference semantics: walk the segments. */
  function Walk(cur: Json, path: seq<Segment>): Result
    decreases path
  {
    if path == [] then Found(cur)
    else match LookupSegment(cur, path[0])
      case Found(next) => Walk(next, path[1..])
      case failure => failure
  }

  lemma DigitCharIsDigit(d: nat)
    requires d < 10
    ensures IsDigit(DigitChar(d)) && DigitValue(DigitChar(d)) == d
  {
  }

  lemma {:induction false} OneMoreDigit(front: string, c: char)
    requires IsDigit(c) && DigitRun(front) == |front|
    ensures ParseNat(front + [c]) == ParseNat(front) * 10 + DigitValue(c)
    ensures DigitRun(front + [c]) == |front| + 1
  {
    assert (front + [c])[..|front|] == front;
    DigitRunConcat(front, [c]);
    assert DigitRun([c]) == 1 by { assert [c][1..] == ""; }
  }

  lemma {:induction false} PrintNatParses(n: nat)
    ensures ParseNat(PrintNat(n)) == n && |PrintNat(n)| > 0
    ensures DigitRun(PrintNat(n)) == |PrintNat(n)|
  {
    DigitCharIsDigit(n % 10);
    assert ParseNat("") == 0 && DigitRun("") == 0;
    hide DigitChar, DigitValue, IsDigit, ParseNat, DigitRun;
    var front := if n < 10 then "" else PrintNat(n / 10);
    if n >= 10 { PrintNatParses(n / 10); }
    OneMoreDigit(front, DigitChar(n % 10));
    assert PrintNat(n) == front + [DigitChar(n % 10)];
  }

  lemma {:induction false} DigitRunConcat(a: string, b: string)
    requires DigitRun(a) == |a|
    ensures DigitRun(a + b) == |a| + DigitRun(b)
  {
    if a == [] {
      assert a + b == b;
    } else {
      assert (a + b)[1..] == a[1..] + b;
      DigitRunConcat(a[1..], b);
    }
  }

  lemma {:induction false} KeyRunConcat(a: string, b: string)
    requires KeyRun(a) == |a|
    ensures KeyRun(a + b) == |a| + KeyRun(b)
  {
    if a == [] {
      assert a + b == b;
    } else {
      assert (a + b)[1..] == a[1..] + b;
      KeyRunConcat(a[1..], b);
    }
  }

  /** Nothing, or the start of another segment. */
  predicate AtSegment(s: string) {
    s == "" || s[0] == '.' || s[0] == '['
  }

  lemma {:induction false} KeyToken(key: string, rest: string)
    requires key != "" && KeyRun(key) == |key| && AtSegment(rest)
    ensures Tokenize("." + key + rest) == ["." + key] + Tokenize(rest)
  {
    KeyRunConcat(key, rest);
    assert KeyRun(rest) == 0;
    hide *;
    DotSplit(key, rest);
    DotStep("." + key + rest);
  }

  lemma DotSplit(key: string, rest: string)
    ensures
      var s := "." + key + rest;
      s[0] == '.' && s[1..] == key + rest && s[..1 + |key|] == "." + key && s[1 + |key|..] == rest
  {
    assert ("." + key + rest)[1..] == key + rest;
  }

  lemma DotStep(s: string)
    requires s != "" && s[0] == '.' && KeyRun(s[1..]) > 0
    ensures Tokenize(s) == [s[..1 + KeyRun(s[1..])]] + Tokenize(s[1 + KeyRun(s[1..])..])
  {
    hide KeyRun, BracketLength;
  }

  lemma IndexToken(i: int, rest: string)
    ensures Tokenize("[" + PrintInt(i) + "]" + rest) == ["[" + PrintInt(i) + "]"] + Tokenize(rest)
    ensures ParseInt(PrintInt(i)) == i
  {
    PrintIntParses(i);
    BracketOfIndex(i, rest);
    var token := "[" + PrintInt(i) + "]";
    hide PrintInt, BracketLength;
    assert (token + rest)[..|token|] == token && (token + rest)[|token|..] == rest;
    assert (token + rest)[0] == '[';
  }

  lemma PrintIntParses(i: int)
    ensures ParseInt(PrintInt(i)) == i
  {
    var digits := PrintNat(if i < 0 then -i else i);
    PrintNatParses(if i < 0 then -i else i);
    FirstIsDigit(digits);
    hide PrintNat, ParseNat, IsDigit;
    if i < 0 {
      assert PrintInt(i)[0] == '-' && PrintInt(i)[1..] == digits;
    }
  }

  lemma FirstIsDigit(digits: string)
    requires |digits| > 0 && DigitRun(digits) == |digits|
    ensures IsDigit(digits[0]) && digits[0] != '-'
  {
  }

  lemma BracketOfIndex(i: int, rest: string)
    ensures BracketLength("[" + PrintInt(i) + "]" + rest) == |PrintInt(i)| + 2
  {
    PrintNatParses(if i < 0 then -i else i);
    BracketOfSigned(if i < 0 then "-" else "", PrintNat(if i < 0 then -i else i), rest);
    hide PrintNat, BracketLength, DigitRun;
    if i >= 0 { assert PrintInt(i) == "" + PrintInt(i); }
  }

  lemma {:induction false} BracketOfSigned(sign: string, digits: string, rest: string)
    requires sign == "" || sign == "-"
    requires |digits| > 0 && DigitRun(digits) == |digits|
    ensures BracketLength("[" + (sign + digits) + "]" + rest) == |sign| + |digits| + 2
  {
    DigitsBeforeBracket(digits, rest);
    hide *;
    var prefix, tail := "[" + sign, digits + ("]" + rest);
    assert prefix == if sign == "" then "[" else "[-";
    BracketOfDigits(prefix, tail, |digits|);
    Regroup("[", sign, digits, "]", rest);
  }

  lemma Regroup<T>(a: seq<T>, b: seq<T>, c: seq<T>, d: seq<T>, e: seq<T>)
    ensures a + (b + c) + d + e == (a + b) + (c + (d + e))
  {
  }

  lemma BracketOfDigits(prefix: string, tail: string, d: nat)
    requires prefix == "[" || prefix == "[-"
    requires 0 < d < |tail| && DigitRun(tail) == d && tail[0] != '-' && tail[d] == ']'
    ensures BracketLength(prefix + tail) == |prefix| + d + 1
  {
    hide *;
    SignBeforeDigits(prefix, tail);
    var s := prefix + tail;
    assert s[|prefix|..] == tail;
    assert s[0] == prefix[0] && s[|prefix| + d] == tail[d];
    BracketShape(s, |prefix|, d);
  }

  lemma {:induction false} DigitsBeforeBracket(digits: string, rest: string)
    requires |digits| > 0 && DigitRun(digits) == |digits|
    ensures DigitRun(digits + ("]" + rest)) == |digits|
    ensures (digits + ("]" + rest))[0] != '-' && (digits + ("]" + rest))[|digits|] == ']'
  {
    FirstIsDigit(digits);
    DigitRunConcat(digits, "]" + rest);
    assert DigitRun("]" + rest) == 0;
  }

  lemma SignBeforeDigits(prefix: string, tail: string)
    requires prefix == "[" || prefix == "[-"
    requires tail != "" && tail[0] != '-'
    ensures SignLength(prefix + tail) == |prefix|
  {
  }

  lemma BracketShape(s: string, k: nat, d: nat)
    requires s != "" && s[0] == '[' && k == SignLength(s) && k + d < |s|
    requires d > 0 && DigitRun(s[k..]) == d && s[k + d] == ']'
    ensures BracketLength(s) == k + d + 1
  {
    hide DigitRun, SignLength;
  }

  lemma {:induction false} TokenizePrinted(path: seq<Segment>)
    requires ValidPath(path)
    ensures Tokenize(Print(path)) == PrintedTokens(path) && AtSegment(Print(path))
  {
    if path != [] {
      TokenizePrinted(path[1..]);
      var rest := Print(path[1..]);
      match path[0] {
        case Key(key) =>
          KeyToken(key, rest);
        case Index(i) =>
          IndexToken(i, rest);
      }
    }
  }

  lemma LookupDotted(cur: Json, key: string)
    ensures LookupToken(cur, "." + key) == LookupKey(cur, key)
  {
    hide LookupKey, LookupIndex, ParseInt;
    assert ("." + key)[1..] == key;
  }

  lemma LookupBracketed(cur: Json, digits: string)
    ensures LookupToken(cur, "[" + digits + "]") == LookupIndex(cur, ParseInt(digits))
  {
    hide LookupKey, LookupIndex, ParseInt;
    var token := "[" + digits + "]";
    assert token[1..|token| - 1] == digits;
  }

  lemma LookupPrinted(cur: Json, s: Segment)
    ensures LookupToken(cur, PrintSegment(s)) == LookupSegment(cur, s)
  {
    hide LookupToken, LookupKey, LookupIndex, ParseInt, PrintInt;
    match s {
      case Key(key) => LookupDotted(cur, key);
      case Index(i) =>
        PrintIntParses(i);
        LookupBracketed(cur, PrintInt(i));
    }
  }

  lemma {:induction false} WalkPrintedTokens(cur: Json, path: seq<Segment>)
    requires ValidPath(path)
    ensures WalkTokens(cur, PrintedTokens(path)) == Walk(cur, path)
    decreases path
  {
    if path != [] {
      assert PrintedTokens(path)[1..] == PrintedTokens(path[1..]);
      LookupPrinted(cur, path[0]);
      hide PrintSegment, LookupSegment, LookupToken;
      match LookupSegment(cur, path[0]) {
        case Found(next) => WalkPrintedTokens(next, path[1..]);
        case _ =>
      }
    }
  }

  /** The leading-dot form of a path; one that starts with an index gets a bare dot in front. */
  function Dotted(path: seq<Segment>): string {
    if path != [] && path[0].Key? then Print(path) else "." + Print(path)
  }

  /**
    Round trip: the leading-dot form tokenizes back to the path's segments, and evaluating it
    is the recursive walk.
  */
  lemma {:induction false} DottedRoundTrip(obj: Json, path: seq<Segment>)
    requires ValidPath(path)
    ensures Tokenize(Dotted(path)) == PrintedTokens(path)
    ensures Evaluate(obj, Dotted(path)) == Walk(obj, path)
  {
    TokenizePrinted(path);
    WalkPrintedTokens(obj, path);
    if path == [] || path[0].Index? {
      assert Dotted(path)[1..] == Print(path);
    }
  }

  // ----- What single steps give, from the value alone -------------------------------------------------

  lemma OneSegment(obj: Json, s: Segment)
    requires ValidPath([s])
    ensures Evaluate(obj, Dotted([s])) == LookupSegment(obj, s)
  {
    DottedRoundTrip(obj, [s]);
    assert [s][1..] == [];
    hide LookupSegment, Evaluate, Dotted;
  }

  /**
    Python indexing: the k-th element from the end is at -k and at length - k; every other index
    is out of range; and only a list can be indexed.
  */
  lemma IndexingIsPythons(items: seq<Json>, obj: Json, k: int, i: int)
    ensures 1 <= k <= |items| ==>
              && Evaluate(List(items), Dotted([Index(-k)])) == Found(items[|items| - k])
              && Evaluate(List(items), Dotted([Index(|items| - k)])) == Found(items[|items| - k])
    ensures i < -|items| || i >= |items| ==> Evaluate(List(items), Dotted([Index(i)])) == IndexOutOfRange
    ensures !obj.List? ==> Evaluate(obj, Dotted([Index(i)])) == NotAList
  {
    IndexOnValue(List(items), -k);
    IndexOnValue(List(items), |items| - k);
    IndexOnValue(List(items), i);
    IndexOnValue(obj, i);
    hide Evaluate, Dotted;
  }

  lemma IndexOnValue(obj: Json, i: int)
    ensures Evaluate(obj, Dotted([Index(i)])) == LookupIndex(obj, i)
  {
    OneSegment(obj, Index(i));
    hide Evaluate, Dotted, LookupIndex;
  }

  /** A key is looked up in an object, and is missing from anything else. */
  lemma KeyLookupIsExact(obj: Json, key: string)
    requires key != "" && '.' !in key && '[' !in key
    ensures
      Evaluate(obj, Dotted([Key(key)])) ==
        if obj.Object? && key in obj.fields then Found(obj.fields[key]) else KeyMissing(key)
  {
    PlainKeyRuns(key);
    OneSegment(obj, Key(key));
    hide Evaluate, Dotted, KeyRun;
  }

  lemma {:induction false} PlainKeyRuns(key: string)
    requires '.' !in key && '[' !in key
    ensures KeyRun(key) == |key|
  {
    if key != "" {
      assert key[0] in key && forall c <- key[1..] :: c in key;
      PlainKeyRuns(key[1..]);
    }
  }

  /** A path is evaluated segment by segment, and the first failure is the answer. */
  lemma PathsCompose(obj: Json, s: Segment, rest: seq<Segment>)
    requires ValidPath([s] + rest)
    ensures Evaluate(obj, Dotted([s] + rest)) ==
              match Evaluate(obj, Dotted([s]))
              case Found(next) => Evaluate(next, Dotted(rest))
              case failure => failure
  {
    var path := [s] + rest;
    assert path[0] == s && path[1..] == rest;
    forall k | 0 <= k < |rest| && rest[k].Key? ensures rest[k].key != "" && KeyRun(rest[k].key) == |rest[k].key| {
      assert path[k + 1] == rest[k];
    }
    OneSegment(obj, s);
    DottedRoundTrip(obj, path);
    hide Evaluate, Dotted, LookupSegment;
    match LookupSegment(obj, s) {
      case Found(next) => DottedRoundTrip(next, rest);
      case _ =>
    }
  }
}
