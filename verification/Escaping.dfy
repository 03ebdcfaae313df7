/**
  The two escapers: JSON Pointer tokens (`_jsonpatch_escape` in `tools/generic.py` and
  `tools/node_ops.py`) and PromQL label values (`_promql_string` in `tools/nvidia_metrics.py`).
  Both are chains of whole-string replaces, whose order matters.
*/
module Escaping {
  import opened Foundations
  import opened Text

  // ----- JSON Pointer ----------------------------------------------------------------

  function JsonPatchEscape(token: string): string {
    Replace(Replace(token, '~', "~0"), '/', "~1")
  }

  function EscapeCharacter(c: char): string {
    if c == '~' then "~0" else if c == '/' then "~1" else [c]
  }

  /** The one-pass substitution the two replaces amount to. */
  function EscapeOnePass(token: string): string
  {
    if token == "" then "" else EscapeCharacter(token[0]) + EscapeOnePass(token[1..])
  }

  lemma {:induction false} EscapeIsOnePass(token: string)
    ensures JsonPatchEscape(token) == EscapeOnePass(token)
  {
    if token != "" {
      var head := if token[0] == '~' then "~0" else [token[0]];
      EscapeIsOnePass(token[1..]);
      assert Replace(token, '~', "~0") == head + Replace(token[1..], '~', "~0");
      ReplaceConcat(head, Replace(token[1..], '~', "~0"), '/', "~1");
      assert head[1..] == if token[0] == '~' then "0" else "";
    }
  }

  /** `s.replace(ab, [c])`: leftmost, non-overlapping. */
  function ReplacePair(s: string, a: char, b: char, c: char): string
  {
    if |s| < 2 then s
    else if s[0] == a && s[1] == b then [c] + ReplacePair(s[2..], a, b, c)
    else [s[0]] + ReplacePair(s[1..], a, b, c)
  }

  /** Section 4 of RFC 6901: first `~1` to `/`, then `~0` to `~`. */
  function PointerDecode(token: string): string {
    ReplacePair(ReplacePair(token, '~', '1', '/'), '~', '0', '~')
  }

  /** Section 3 of RFC 6901: no `/`, and every `~` starts `~0` or `~1`. */
  predicate ReferenceToken(t: string)
  {
    if t == "" then true
    else if t[0] == '/' then false
    else if t[0] == '~' then |t| >= 2 && t[1] in "01" && ReferenceToken(t[2..])
    else ReferenceToken(t[1..])
  }

  function DecodeOnePass(t: string): string
    requires ReferenceToken(t)
  {
    if t == "" then ""
    else if t[0] == '~' then [if t[1] == '0' then '~' else '/'] + DecodeOnePass(t[2..])
    else [t[0]] + DecodeOnePass(t[1..])
  }

  /** A reference token with its `~1` decoded and its `~0` not yet. */
  function HalfDecoded(t: string): string
    requires ReferenceToken(t)
  {
    if t == "" then ""
    else if t[0] == '~' then (if t[1] == '0' then "~0" else "/") + HalfDecoded(t[2..])
    else [t[0]] + HalfDecoded(t[1..])
  }

  lemma PairElsewhere(first: char, s: string, a: char, b: char, c: char)
    requires first != a || s == "" || s[0] != b
    ensures ReplacePair([first] + s, a, b, c) == [first] + ReplacePair(s, a, b, c)
  {
    assert ([first] + s)[1..] == s;
  }

  lemma PairHere(s: string, a: char, b: char, c: char)
    ensures ReplacePair([a, b] + s, a, b, c) == [c] + ReplacePair(s, a, b, c)
  {
    assert ([a, b] + s)[2..] == s;
  }

  /** On reference tokens the RFC's ordered decoding is a one-pass decoding. */
  lemma {:induction false} DecodingIsOnePass(t: string)
    requires ReferenceToken(t)
    ensures ReplacePair(t, '~', '1', '/') == HalfDecoded(t)
    ensures PointerDecode(t) == DecodeOnePass(t)
  {
    if t == "" {
    } else if t[0] == '~' {
      DecodingIsOnePass(t[2..]);
      var rest := HalfDecoded(t[2..]);
      if t[1] == '0' {
        assert t == ['~'] + (['0'] + t[2..]);
        PairElsewhere('~', ['0'] + t[2..], '~', '1', '/');
        PairElsewhere('0', t[2..], '~', '1', '/');
        assert ['~'] + (['0'] + rest) == ['~', '0'] + rest;
        PairHere(rest, '~', '0', '~');
      } else {
        assert t == ['~', '1'] + t[2..];
        PairHere(t[2..], '~', '1', '/');
        PairElsewhere('/', rest, '~', '0', '~');
      }
    } else {
      DecodingIsOnePass(t[1..]);
      assert t == [t[0]] + t[1..];
      PairElsewhere(t[0], t[1..], '~', '1', '/');
      PairElsewhere(t[0], HalfDecoded(t[1..]), '~', '0', '~');
    }
  }

  lemma {:induction false} OnePassRoundTrip(s: string)
    ensures ReferenceToken(EscapeOnePass(s)) && DecodeOnePass(EscapeOnePass(s)) == s
  {
    if s != "" {
      OnePassRoundTrip(s[1..]);
      var t := EscapeOnePass(s);
      if s[0] == '~' || s[0] == '/' {
        assert t[2..] == EscapeOnePass(s[1..]);
      } else {
        assert t[1..] == EscapeOnePass(s[1..]);
      }
    }
  }

  lemma {:induction false} OnePassOnto(t: string)
    requires ReferenceToken(t)
    ensures EscapeOnePass(DecodeOnePass(t)) == t
  {
    if t == "" {
    } else if t[0] == '~' {
      OnePassOnto(t[2..]);
      assert t == t[..2] + t[2..];
      assert DecodeOnePass(t)[1..] == DecodeOnePass(t[2..]);
    } else {
      OnePassOnto(t[1..]);
      assert DecodeOnePass(t)[1..] == DecodeOnePass(t[1..]);
    }
  }

  /**
    Escaping always yields a reference token (never a raw `/`), the RFC's decoder undoes it,
    and on reference tokens escaping undoes the decoder: escaping is a bijection.
  */
  lemma EscapeIsABijection(s: string, t: string)
    ensures ReferenceToken(JsonPatchEscape(s)) && '/' !in JsonPatchEscape(s)
    ensures PointerDecode(JsonPatchEscape(s)) == s
    ensures ReferenceToken(t) ==> JsonPatchEscape(PointerDecode(t)) == t
  {
    EscapeIsOnePass(s);
    OnePassRoundTrip(s);
    DecodingIsOnePass(EscapeOnePass(s));
    NoSlash(EscapeOnePass(s));
    if ReferenceToken(t) {
      DecodingIsOnePass(t);
      OnePassOnto(t);
      EscapeIsOnePass(DecodeOnePass(t));
    }
  }

  lemma {:induction false} NoSlash(t: string)
    requires ReferenceToken(t)
    ensures '/' !in t
  {
    if t == "" {
    } else if t[0] == '~' {
      NoSlash(t[2..]);
      assert t == [t[0], t[1]] + t[2..];
    } else {
      NoSlash(t[1..]);
      assert t == [t[0]] + t[1..];
    }
  }

  // The replaces in the other order.

  function SwappedEscape(token: string): string {
    Replace(Replace(token, '/', "~1"), '~', "~0")
  }

  function SwappedCharacter(c: char): string {
    if c == '/' then "~01" else if c == '~' then "~0" else [c]
  }

  lemma SwappedStep(token: string)
    requires token != ""
    ensures SwappedEscape(token) == SwappedCharacter(token[0]) + SwappedEscape(token[1..])
  {
    var head := if token[0] == '/' then "~1" else [token[0]];
    var rest := Replace(token[1..], '/', "~1");
    assert Replace(token, '/', "~1") == head + rest;
    ReplaceConcat(head, rest, '~', "~0");
    assert head[1..] == if token[0] == '/' then "1" else "";
  }

  lemma {:induction false} SwappedIsLonger(token: string)
    ensures '/' in token ==> |SwappedEscape(token)| > |EscapeOnePass(token)|
    ensures '/' !in token ==> SwappedEscape(token) == EscapeOnePass(token)
    ensures |SwappedEscape(token)| >= |EscapeOnePass(token)|
  {
    if token != "" {
      SwappedStep(token);
      SwappedIsLonger(token[1..]);
      assert token == [token[0]] + token[1..];
      hide SwappedEscape;
    }
  }

  /** Replacing in the other order gives the same exactly on tokens without a `/`, which would come out as `~01`. */
  lemma OrderMatters(token: string)
    ensures SwappedEscape(token) == JsonPatchEscape(token) <==> '/' !in token
  {
    EscapeIsOnePass(token);
    SwappedIsLonger(token);
  }

  // ----- PromQL label values -------------------------------------------------------------

  function PromqlString(value: string): string {
    Replace(Replace(Replace(value, '\\', "\\\\"), '"', "\\\""), '\n', "\\n")
  }

  function QuoteCharacter(c: char): string {
    if c == '\\' then "\\\\" else if c == '"' then "\\\"" else if c == '\n' then "\\n" else [c]
  }

  function QuoteOnePass(value: string): string
  {
    if value == "" then "" else QuoteCharacter(value[0]) + QuoteOnePass(value[1..])
  }

  lemma {:induction false} QuoteIsOnePass(value: string)
    ensures PromqlString(value) == QuoteOnePass(value)
  {
    if value != "" {
      QuoteIsOnePass(value[1..]);
      var c := value[0];
      var h1 := if c == '\\' then "\\\\" else [c];
      var r1 := Replace(value[1..], '\\', "\\\\");
      assert Replace(value, '\\', "\\\\") == h1 + r1;
      ReplaceConcat(h1, r1, '"', "\\\"");
      var h2 := Replace(h1, '"', "\\\"");
      assert h1[1..] == (if c == '\\' then "\\" else "") && h1[1..] != "" ==> h1[1..][1..] == "";
      assert h2 == if c == '"' then "\\\"" else h1;
      ReplaceConcat(h2, Replace(r1, '"', "\\\""), '\n', "\\n");
      assert h2[1..] == "" || h2[1..][1..] == "";
      assert Replace(h2, '\n', "\\n") == QuoteCharacter(c);
    }
  }

  /**
    A reader of double-quoted literals, started behind the opening quote: the value read and
    what follows the closing quote. A raw newline or an unknown escape is an error.
  */
  function ReadLiteral(s: string): Option<(string, string)>
  {
    if s == "" || s[0] == '\n' then None
    else if s[0] == '"' then Some(("", s[1..]))
    else if s[0] != '\\' then Cons(s[0], ReadLiteral(s[1..]))
    else if |s| < 2 then None
    else if s[1] == 'n' then Cons('\n', ReadLiteral(s[2..]))
    else if s[1] == '\\' || s[1] == '"' then Cons(s[1], ReadLiteral(s[2..]))
    else None
  }

  function Cons(c: char, r: Option<(string, string)>): Option<(string, string)> {
    match r
    case None => None
    case Some((value, rest)) => Some(([c] + value, rest))
  }

  /** The reader gets the value back and stops exactly at the closing quote, whatever the value and whatever follows. */
  lemma {:induction false} PromqlStringRoundTrip(value: string, rest: string)
    ensures ReadLiteral(PromqlString(value) + "\"" + rest) == Some((value, rest))
  {
    QuoteIsOnePass(value);
    if value == "" {
      assert PromqlString(value) + "\"" + rest == "\"" + rest;
    } else {
      var tail := PromqlString(value[1..]) + "\"" + rest;
      QuoteIsOnePass(value[1..]);
      PromqlStringRoundTrip(value[1..], rest);
      assert PromqlString(value) + "\"" + rest == QuoteCharacter(value[0]) + tail;
      ReadOneCharacter(value[0], tail);
      assert [value[0]] + value[1..] == value;
    }
  }

  lemma ReadOneCharacter(c: char, tail: string)
    ensures ReadLiteral(QuoteCharacter(c) + tail) == Cons(c, ReadLiteral(tail))
  {
    var q := QuoteCharacter(c);
    var s := q + tail;
    if |q| == 2 {
      assert s[0] == '\\' && s[1] == q[1] && s[2..] == tail;
    } else {
      assert s[0] == c && s[1..] == tail;
    }
  }
}
