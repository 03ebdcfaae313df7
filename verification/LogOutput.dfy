/**
  Filtering and byte-bounded serialization of log records (`tools/logs.py`).

  Text output is cut in UTF-8 bytes, from the head, then moved to a line boundary, then
  decoded with replacement characters. `Utf8` is the encoder; `DecodeReplace` is defined
  from it. Regular expressions and `json.dumps` are parameters.
*/
module LogOutput {
  import opened Foundations
  import opened LogFanOut

  type Byte = b: int | 0 <= b < 256

  // ----- UTF-8 -------------------------------------------------------------------------

  function Encode(c: char): (r: seq<Byte>)
    ensures 1 <= |r| <= 4
  {
    var n := c as int;
    if n < 0x80 then [n]
    else if n < 0x800 then [0xC0 + n / 64, 0x80 + n % 64]
    else if n < 0x10000 then [0xE0 + n / 4096, 0x80 + n / 64 % 64, 0x80 + n % 64]
    else [0xF0 + n / 262144, 0x80 + n / 4096 % 64, 0x80 + n / 64 % 64, 0x80 + n % 64]
  }

  function Utf8(s: string): seq<Byte>
  {
    if s == [] then [] else Encode(s[0]) + Utf8(s[1..])
  }

  predicate Continuation(b: Byte) { 0x80 <= b < 0xC0 }

  const LF: Byte := 10
  const REPLACEMENT: char := '\U{FFFD}'

  lemma LeadByte(c: char)
    ensures !Continuation(Encode(c)[0]) && forall i | 1 <= i < |Encode(c)| :: Continuation(Encode(c)[i])
    ensures (exists i | 0 <= i < |Encode(c)| :: Encode(c)[i] == LF) <==> c == '\n'
    ensures c == '\n' ==> Encode(c) == [LF]
  {
    if c == '\n' { assert Encode(c)[0] == LF; }
  }

  /** The encoding is that of RFC 3629, section 3: how many bytes, their leading bits, and the code point they carry. */
  lemma EncodeIsUtf8(c: char)
    ensures
      var n, r := c as int, Encode(c);
      && (|r| == 1 <==> n < 0x80) && (|r| == 2 <==> 0x80 <= n < 0x800)
      && (|r| == 3 <==> 0x800 <= n < 0x10000) && (|r| == 4 <==> 0x10000 <= n)
      && (|r| == 1 ==> n == r[0])
      && (|r| == 2 ==> 0xC0 <= r[0] < 0xE0 && n == (r[0] as int - 0xC0) * 64 + (r[1] as int - 0x80))
      && (|r| == 3 ==> 0xE0 <= r[0] < 0xF0 && n == (r[0] as int - 0xE0) * 4096 + (r[1] as int - 0x80) * 64 + (r[2] as int - 0x80))
      && (|r| == 4 ==> 0xF0 <= r[0] < 0xF8 && n == (r[0] as int - 0xF0) * 262144 + (r[1] as int - 0x80) * 4096 + (r[2] as int - 0x80) * 64 + (r[3] as int - 0x80))
  {
    var n := c as int;
    assert n == n / 64 * 64 + n % 64;
    assert n / 64 == n / 4096 * 64 + n / 64 % 64 by { assert n / 4096 == n / 64 / 64; }
    assert n / 4096 == n / 262144 * 64 + n / 4096 % 64 by { assert n / 262144 == n / 4096 / 64; }
  }

  /** No encoding is a prefix of another: what starts a byte string decides its first character. */
  lemma PrefixFree(c: char, d: char, bytes: seq<Byte>)
    requires Encode(c) <= bytes && Encode(d) <= bytes
    ensures c == d
  {
    var n, m := c as int, d as int;
    var x, y := Encode(c), Encode(d);
    assert x[0] == bytes[0] == y[0];
    assert |x| == |y|;
    assert |x| > 1 ==> x[1] == bytes[1] == y[1];
    assert |x| > 2 ==> x[2] == bytes[2] == y[2];
    assert |x| > 3 ==> x[3] == bytes[3] == y[3];
    if 0x80 <= n < 0x800 {
      assert n / 64 == m / 64 && n % 64 == m % 64;
    } else if 0x800 <= n < 0x10000 {
      ThreeDigits(n, m);
    } else if 0x10000 <= n {
      FourDigits(n, m);
    }
  }

  lemma ThreeDigits(n: nat, m: nat)
    requires n / 4096 == m / 4096 && n / 64 % 64 == m / 64 % 64 && n % 64 == m % 64
    ensures n == m
  {
    assert n / 4096 == n / 64 / 64 && m / 4096 == m / 64 / 64;
  }

  lemma FourDigits(n: nat, m: nat)
    requires n / 262144 == m / 262144 && n / 4096 % 64 == m / 4096 % 64 && n / 64 % 64 == m / 64 % 64 && n % 64 == m % 64
    ensures n == m
  {
    assert n / 262144 == n / 4096 / 64 && m / 262144 == m / 4096 / 64;
    assert n / 4096 == m / 4096;
    ThreeDigits(n, m);
  }

  /** `bytes.decode("utf-8", errors="replace")`: a byte that starts no character becomes U+FFFD. */
  ghost function DecodeReplace(bytes: seq<Byte>): string
  {
    if bytes == [] then []
    else if c: char :| Encode(c) <= bytes then [c] + DecodeReplace(bytes[|Encode(c)|..])
    else [REPLACEMENT] + DecodeReplace(bytes[1..])
  }

  lemma {:induction false} Utf8Concat(a: string, b: string)
    ensures Utf8(a + b) == Utf8(a) + Utf8(b)
  {
    hide Encode;
    if a == [] {
      assert a + b == b;
    } else {
      Utf8Concat(a[1..], b);
      assert (a + b)[0] == a[0] && (a + b)[1..] == a[1..] + b;
    }
  }

  lemma {:induction false} DecodeFirst(c: char, rest: seq<Byte>)
    ensures DecodeReplace(Encode(c) + rest) == [c] + DecodeReplace(rest)
  {
    var bytes := Encode(c) + rest;
    assert Encode(c) <= bytes;
    forall d: char | Encode(d) <= bytes ensures d == c { PrefixFree(d, c, bytes); }
    assert bytes[|Encode(c)|..] == rest;
  }

  /** Decoding undoes encoding. */
  lemma {:induction false} DecodeEncoded(s: string)
    ensures DecodeReplace(Utf8(s)) == s
  {
    if s != [] {
      DecodeFirst(s[0], Utf8(s[1..]));
      DecodeEncoded(s[1..]);
    }
  }

  function Marks(n: nat): string
  {
    if n == 0 then [] else [REPLACEMENT] + Marks(n - 1)
  }

  /** Continuation bytes in front of an encoding decode to that many replacement characters. */
  lemma {:induction false} DecodeStray(stray: seq<Byte>, s: string)
    requires forall i | 0 <= i < |stray| :: Continuation(stray[i])
    ensures DecodeReplace(stray + Utf8(s)) == Marks(|stray|) + s
    decreases |stray|
  {
    hide DecodeReplace, Utf8, Encode;
    if stray == [] {
      assert stray + Utf8(s) == Utf8(s);
      DecodeEncoded(s);
    } else {
      var rest := stray[1..] + Utf8(s);
      assert stray + Utf8(s) == [stray[0]] + rest;
      DecodeBad(stray[0], rest);
      DecodeStray(stray[1..], s);
      OneMoreMark(|stray|, s);
    }
  }

  lemma OneMoreMark(n: nat, s: string)
    requires n > 0
    ensures [REPLACEMENT] + (Marks(n - 1) + s) == Marks(n) + s
  {
  }

  lemma DecodeBad(b: Byte, rest: seq<Byte>)
    requires Continuation(b)
    ensures DecodeReplace([b] + rest) == [REPLACEMENT] + DecodeReplace(rest)
  {
    var bytes := [b] + rest;
    forall c: char ensures !(Encode(c) <= bytes) { LeadByte(c); }
    assert bytes[1..] == rest;
  }

  // ----- Cutting bytes ------------------------------------------------------------------

  /** A cut at byte `i` leaves at most three bytes of a split character before a whole suffix. */
  lemma {:induction false} CutPoint(s: string, i: nat) returns (stray: seq<Byte>, j: nat)
    requires i <= |Utf8(s)|
    ensures j <= |s| && Utf8(s)[i..] == stray + Utf8(s[j..])
    ensures |stray| <= 3 && forall k | 0 <= k < |stray| :: Continuation(stray[k])
  {
    if s == [] {
      stray, j := [], 0;
    } else {
      var head := Encode(s[0]);
      LeadByte(s[0]);
      if i == 0 {
        stray, j := [], 0;
      } else if i < |head| {
        stray, j := head[i..], 1;
        assert Utf8(s)[i..] == head[i..] + Utf8(s[1..]);
      } else {
        stray, j := CutPoint(s[1..], i - |head|);
        assert Utf8(s)[i..] == Utf8(s[1..])[i - |head|..];
        assert s[1..][j..] == s[j + 1..];
        j := j + 1;
      }
    }
  }

  /** A newline byte is a newline character: what follows it is a whole suffix of the text. */
  lemma {:induction false} NewlineByte(s: string, i: nat) returns (j: nat)
    requires i < |Utf8(s)| && Utf8(s)[i] == LF
    ensures j < |s| && s[j] == '\n' && Utf8(s)[i + 1..] == Utf8(s[j + 1..])
  {
    var head := Encode(s[0]);
    LeadByte(s[0]);
    if i < |head| {
      assert head[i] == LF;
      j := 0;
      assert head == [LF];
    } else {
      j := NewlineByte(s[1..], i - |head|);
      assert Utf8(s)[i + 1..] == Utf8(s[1..])[i - |head| + 1..];
      assert s[1..][j + 1..] == s[j + 2..];
      j := j + 1;
    }
  }

  // ----- Text output ------------------------------------------------------------------------

  function RenderLine(r: Record): string {
    (if r.pod != "" && r.container != "" then "[" + r.pod + "/" + r.container + "] "
     else if r.pod != "" then "[" + r.pod + "] " else "")
    + (if r.time != "" then r.time + " " else "") + r.line
  }

  function RenderLines(records: seq<Record>): seq<string>
  {
    if records == [] then [] else [RenderLine(records[0])] + RenderLines(records[1..])
  }

  function JoinLines(lines: seq<string>): string
  {
    if lines == [] then ""
    else if |lines| == 1 then lines[0]
    else lines[0] + "\n" + JoinLines(lines[1..])
  }

  predicate SingleLines(lines: seq<string>) {
    forall i | 0 <= i < |lines| :: '\n' !in lines[i]
  }

  lemma HeadCharacter(lines: seq<string>, j: nat)
    requires lines != [] && j < |lines[0]|
    ensures j < |JoinLines(lines)| && JoinLines(lines)[j] == lines[0][j]
  {
  }

  /** What follows a newline of joined single lines is the join of a proper suffix of them. */
  lemma {:induction false} AfterNewline(lines: seq<string>, j: nat) returns (k: nat)
    requires SingleLines(lines) && j < |JoinLines(lines)| && JoinLines(lines)[j] == '\n'
    ensures 0 < k < |lines| && JoinLines(lines)[j + 1..] == JoinLines(lines[k..])
  {
    var head := lines[0];
    assert j >= |head| by {
      if j < |head| { HeadCharacter(lines, j); }
    }
    if j == |head| {
      k := 1;
      assert JoinLines(lines)[j + 1..] == JoinLines(lines[1..]);
    } else {
      var rest := JoinLines(lines[1..]);
      assert JoinLines(lines) == head + "\n" + rest;
      assert JoinLines(lines)[j] == rest[j - |head| - 1];
      k := AfterNewline(lines[1..], j - |head| - 1);
      assert JoinLines(lines)[j + 1..] == rest[j - |head|..];
      assert lines[1..][k..] == lines[k + 1..];
      k := k + 1;
    }
  }

  /** Python's `enc[-max_bytes:]`. */
  function TailBytes(enc: seq<Byte>, maxBytes: int): seq<Byte>
  {
    if maxBytes > 0 then (if maxBytes <= |enc| then enc[|enc| - maxBytes..] else enc)
    else if -maxBytes <= |enc| then enc[-maxBytes..]
    else []
  }

  /** `bytes.find(b"\n")`. */
  function FindNewline(bytes: seq<Byte>): (nl: int)
    ensures -1 <= nl < |bytes|
    ensures nl >= 0 ==> bytes[nl] == LF
    ensures forall i | 0 <= i < (if nl >= 0 then nl else |bytes|) :: bytes[i] != LF
  {
    if bytes == [] then -1
    else if bytes[0] == LF then 0
    else
      var rest := FindNewline(bytes[1..]);
      if rest < 0 then -1 else rest + 1
  }

  predicate Trims(kept: seq<Byte>) {
    0 < FindNewline(kept) < |kept| - 1
  }

  function TrimToLine(kept: seq<Byte>): seq<Byte>
  {
    if Trims(kept) then kept[FindNewline(kept) + 1..] else kept
  }

  /** The bytes `_serialize_text` keeps. */
  function KeptBytes(body: string, maxBytes: int): seq<Byte>
  {
    if |Utf8(body)| <= maxBytes then Utf8(body) else TrimToLine(TailBytes(Utf8(body), maxBytes))
  }

  lemma {:induction false} RenderLinesConcat(a: seq<Record>, b: seq<Record>)
    ensures RenderLines(a + b) == RenderLines(a) + RenderLines(b)
  {
    hide RenderLine;
    if a == [] {
      assert a + b == b;
    } else {
      RenderLinesConcat(a[1..], b);
      assert (a + b)[1..] == a[1..] + b;
    }
  }

  /** Line `i` names pod and container when both are known, or the pod, then the time if any, then the text. */
  lemma RenderedLinesAre(records: seq<Record>, i: nat)
    requires i < |records|
    ensures |RenderLines(records)| == |records|
    ensures
      var r, line := records[i], RenderLines(records)[i];
      var stamped := if r.time == "" then r.line else r.time + " " + r.line;
      && (r.pod == "" ==> line == stamped)
      && (r.pod != "" && r.container == "" ==> line == "[" + r.pod + "] " + stamped)
      && (r.pod != "" && r.container != "" ==> line == "[" + r.pod + "/" + r.container + "] " + stamped)
  {
    hide *;
    RenderedAt(records, i);
    RenderLineShape(records[i]);
  }

  lemma {:induction false} RenderedAt(records: seq<Record>, i: nat)
    requires i < |records|
    ensures |RenderLines(records)| == |records| && RenderLines(records)[i] == RenderLine(records[i])
  {
    hide RenderLine;
    if i > 0 { RenderedAt(records[1..], i - 1); } else { RenderLinesLength(records); }
  }

  lemma RenderLineShape(r: Record)
    ensures
      var line := RenderLine(r);
      var stamped := if r.time == "" then r.line else r.time + " " + r.line;
      && (r.pod == "" ==> line == stamped)
      && (r.pod != "" && r.container == "" ==> line == "[" + r.pod + "] " + stamped)
      && (r.pod != "" && r.container != "" ==> line == "[" + r.pod + "/" + r.container + "] " + stamped)
  {
    if r.time == "" { assert "" + r.line == r.line; }
  }

  lemma FirstRendered(records: seq<Record>)
    requires records != []
    ensures RenderLines(records) != [] && RenderLines(records)[0] == RenderLine(records[0])
  {
    hide RenderLine;
  }

  lemma {:induction false} RenderLinesLength(records: seq<Record>)
    ensures |RenderLines(records)| == |records|
  {
    hide RenderLine;
    if records != [] { RenderLinesLength(records[1..]); }
  }

  /** Returns the kept bytes; the source returns them decoded (`DecodeReplace`). */
  method SerializeText(records: seq<Record>, maxBytes: int) returns (kept: seq<Byte>, truncated: bool)
    ensures kept == KeptBytes(JoinLines(RenderLines(records)), maxBytes)
    ensures truncated <==> |Utf8(JoinLines(RenderLines(records)))| > maxBytes
  {
    var lines: seq<string> := [];
    for i := 0 to |records|
      invariant lines == RenderLines(records[..i])
    {
      assert records[..i + 1] == records[..i] + [records[i]];
      RenderLinesConcat(records[..i], [records[i]]);
      var prefix := "";
      if records[i].pod != "" && records[i].container != "" {
        prefix := "[" + records[i].pod + "/" + records[i].container + "] ";
      } else if records[i].pod != "" {
        prefix := "[" + records[i].pod + "] ";
      }
      var ts := if records[i].time != "" then records[i].time + " " else "";
      lines := lines + [prefix + ts + records[i].line];
    }
    assert records[..|records|] == records;
    var enc := Utf8(JoinLines(lines));
    if |enc| <= maxBytes {
      return enc, false;
    }
    kept := TailBytes(enc, maxBytes);
    var nl := FindNewline(kept);
    if 0 < nl < |kept| - 1 {
      kept := kept[nl + 1..];
    }
    return kept, true;
  }

  /** Whatever is kept is a suffix of the encoded text, within any positive budget. */
  lemma KeptIsSuffix(body: string, maxBytes: int) returns (i: nat)
    ensures i <= |Utf8(body)| && KeptBytes(body, maxBytes) == Utf8(body)[i..]
    ensures maxBytes >= 1 ==> |KeptBytes(body, maxBytes)| <= maxBytes
  {
    var enc := Utf8(body);
    hide Utf8, FindNewline;
    if |enc| <= maxBytes { return 0; }
    i := TailIsSuffix(enc, maxBytes);
    var cut := enc[i..];
    if Trims(cut) {
      var nl := FindNewline(cut);
      assert cut[nl + 1..] == enc[i + nl + 1..];
      i := i + nl + 1;
    }
  }

  lemma TailIsSuffix(enc: seq<Byte>, maxBytes: int) returns (i: nat)
    ensures i <= |enc| && TailBytes(enc, maxBytes) == enc[i..]
  {
    i := |enc| - |TailBytes(enc, maxBytes)|;
  }

  /**
    What is kept respects the byte budget on every over-long text exactly when the budget is
    positive: a zero budget keeps everything, and a negative one still keeps the empty text.
  */
  lemma CutRespectsBudgetIff(maxBytes: int)
    ensures (forall body | |Utf8(body)| > maxBytes :: |KeptBytes(body, maxBytes)| <= maxBytes) <==> maxBytes >= 1
    ensures (forall enc | |enc| > maxBytes :: |TailBytes(enc, maxBytes)| <= maxBytes) <==> maxBytes >= 1
  {
    if maxBytes >= 1 {
      forall body | |Utf8(body)| > maxBytes ensures |KeptBytes(body, maxBytes)| <= maxBytes {
        var i := KeptIsSuffix(body, maxBytes);
      }
    } else {
      var enc: seq<Byte> := [LF];
      assert |enc| > maxBytes && |TailBytes(enc, maxBytes)| > maxBytes;
      if maxBytes == 0 {
        assert Utf8("\n") == [LF] by { LeadByte('\n'); assert "\n"[1..] == ""; }
        assert KeptBytes("\n", 0) == [LF];
      } else {
        assert Utf8("") == [];
        assert |KeptBytes("", maxBytes)| > maxBytes;
      }
    }
  }

  /** The first newline at or behind byte `start` is neither that byte nor the last one. */
  ghost predicate NewlineInside(enc: seq<Byte>, start: nat) {
    exists p :: FirstNewlineFrom(enc, start, p) && start < p < |enc| - 1
  }

  predicate FirstNewlineFrom(enc: seq<Byte>, start: nat, p: int) {
    start <= p < |enc| && enc[p] == LF && forall q | start <= q < p :: enc[q] != LF
  }

  /** When the line trim applies. */
  lemma TrimsIff(enc: seq<Byte>, maxBytes: int)
    requires 1 <= maxBytes < |enc|
    ensures Trims(TailBytes(enc, maxBytes)) <==> NewlineInside(enc, |enc| - maxBytes)
    ensures Trims(TailBytes(enc, maxBytes)) ==> FirstNewlineFrom(enc, |enc| - maxBytes, |enc| - maxBytes + FindNewline(TailBytes(enc, maxBytes)))
  {
    var start := |enc| - maxBytes;
    var tail := TailBytes(enc, maxBytes);
    var nl := FindNewline(tail);
    assert forall q | start <= q < |enc| :: enc[q] == tail[q - start];
    hide FindNewline;
    if nl >= 0 { assert FirstNewlineFrom(enc, start, start + nl); }
    if p :| FirstNewlineFrom(enc, start, p) && start < p < |enc| - 1 {
      assert tail[p - start] == LF;
      assert nl == p - start;
    }
  }

  /** Where a newline of the text sits in its encoding. */
  lemma NewlineAt(body: string, j: nat)
    requires j < |body| && body[j] == '\n'
    ensures |Utf8(body)| == |Utf8(body[..j])| + 1 + |Utf8(body[j + 1..])|
    ensures Utf8(body)[|Utf8(body[..j])|] == LF
  {
    assert body == body[..j] + ("\n" + body[j + 1..]);
    Utf8Concat(body[..j], "\n" + body[j + 1..]);
    Utf8Concat("\n", body[j + 1..]);
    assert Utf8("\n") == [LF] by { LeadByte('\n'); assert "\n"[1..] == ""; }
  }

  lemma PrefixesGrow(body: string, m: nat, j: nat)
    requires m < j <= |body|
    ensures |Utf8(body[..m])| < |Utf8(body[..j])|
  {
    assert body[..j] == body[..m] + body[m..j];
    Utf8Concat(body[..m], body[m..j]);
    assert |Utf8(body[m..j])| > 0;
  }

  /**
    When the line trim applies, what is kept is the whole text after the first newline behind
    the cut: no character is split, and no newline between the cut and that one is passed over.
  */
  lemma TrimmedPayloadFollowsNewline(body: string, maxBytes: int) returns (j: nat)
    requires 1 <= maxBytes < |Utf8(body)| && NewlineInside(Utf8(body), |Utf8(body)| - maxBytes)
    ensures j < |body| && body[j] == '\n'
    ensures KeptBytes(body, maxBytes) == Utf8(body[j + 1..]) && |KeptBytes(body, maxBytes)| < maxBytes
    ensures DecodeReplace(KeptBytes(body, maxBytes)) == body[j + 1..]
    ensures |Utf8(body)| - maxBytes < |Utf8(body[..j])|
    ensures forall m | 0 <= m < j && body[m] == '\n' :: |Utf8(body[..m])| < |Utf8(body)| - maxBytes
  {
    j := TrimNewline(body, maxBytes);
    hide Utf8, DecodeReplace, NewlineInside, KeptBytes;
    DecodeEncoded(body[j + 1..]);
    NewlineAt(body, j);
    var start := |Utf8(body)| - maxBytes;
    forall m | 0 <= m < j && body[m] == '\n' ensures |Utf8(body[..m])| < start {
      NewlineAt(body, m);
      PrefixesGrow(body, m, j);
    }
  }

  /** The newline the trim finds, as a position of the text. */
  lemma TrimNewline(body: string, maxBytes: int) returns (j: nat)
    requires 1 <= maxBytes < |Utf8(body)| && NewlineInside(Utf8(body), |Utf8(body)| - maxBytes)
    ensures j < |body| && body[j] == '\n'
    ensures KeptBytes(body, maxBytes) == Utf8(body[j + 1..]) && |KeptBytes(body, maxBytes)| < maxBytes
    ensures |Utf8(body)| - maxBytes < |Utf8(body[..j])|
    ensures FirstNewlineFrom(Utf8(body), |Utf8(body)| - maxBytes, |Utf8(body[..j])|)
  {
    hide Utf8, TailBytes, TrimToLine, NewlineInside;
    var enc := Utf8(body);
    var i := TrimmedBytes(enc, maxBytes);
    j := NewlineByte(body, i);
    NewlineAt(body, j);
    assert |Utf8(body[..j])| == i;
  }

  lemma TrimmedBytes(enc: seq<Byte>, maxBytes: int) returns (i: nat)
    requires 1 <= maxBytes < |enc| && NewlineInside(enc, |enc| - maxBytes)
    ensures |enc| - maxBytes < i < |enc| - 1 && FirstNewlineFrom(enc, |enc| - maxBytes, i)
    ensures TrimToLine(TailBytes(enc, maxBytes)) == enc[i + 1..]
  {
    var cut := TailBytes(enc, maxBytes);
    TrimsIff(enc, maxBytes);
    var nl := FindNewline(cut);
    i := |enc| - maxBytes + nl;
    hide FindNewline, NewlineInside;
    assert cut[nl + 1..] == enc[i + 1..];
  }

  /** A list of lines is joined by joining its parts. */
  lemma {:induction false} JoinSplits(lines: seq<string>, k: nat)
    requires 0 < k < |lines|
    ensures JoinLines(lines) == JoinLines(lines[..k]) + "\n" + JoinLines(lines[k..])
  {
    if k == 1 {
      assert lines[..1][0] == lines[0] && |lines[..1]| == 1;
    } else {
      assert lines[1..][..k - 1] == lines[..k][1..] && lines[1..][k - 1..] == lines[k..];
      JoinSplits(lines[1..], k - 1);
      var head, mid, rest := lines[0], JoinLines(lines[..k][1..]), JoinLines(lines[k..]);
      assert JoinLines(lines[..k]) == head + "\n" + mid;
      assert head + "\n" + (mid + "\n" + rest) == (head + "\n" + mid) + "\n" + rest;
    }
  }

  /**
    Then the payload is exactly the join of the longest proper suffix of the rendered lines that
    is shorter than the budget: with one more line it would not be.
  */
  lemma TrimmedPayloadIsLines(lines: seq<string>, maxBytes: int) returns (k: nat)
    requires SingleLines(lines) && 1 <= maxBytes < |Utf8(JoinLines(lines))|
    requires NewlineInside(Utf8(JoinLines(lines)), |Utf8(JoinLines(lines))| - maxBytes)
    ensures 0 < k < |lines|
    ensures KeptBytes(JoinLines(lines), maxBytes) == Utf8(JoinLines(lines[k..]))
    ensures DecodeReplace(KeptBytes(JoinLines(lines), maxBytes)) == JoinLines(lines[k..])
    ensures |Utf8(JoinLines(lines[k..]))| < maxBytes <= |Utf8(JoinLines(lines[k - 1..]))|
  {
    hide Utf8, DecodeReplace, KeptBytes, NewlineInside;
    var body := JoinLines(lines);
    var j := TrimmedPayloadFollowsNewline(body, maxBytes);
    k := AfterNewline(lines, j);
    JoinSplits(lines, k);
    if k == 1 {
      assert lines[0..] == lines;
    } else {
      JoinSplits(lines, k - 1);
      JoinSplits(lines[..k], k - 1);
      assert lines[..k][..k - 1] == lines[..k - 1];
      var m := |JoinLines(lines[..k - 1])|;
      hide JoinLines;
      assert body[m] == '\n' && body[m + 1..] == JoinLines(lines[k - 1..]);
      assert m < j;
      NewlineAt(body, m);
    }
  }

  /**
    Without the trim the last `max_bytes` bytes are kept, and the decoded payload stays within the budget exactly when the cut did not
    fall inside a character: each byte of a split one grows into a three-byte U+FFFD.
  */
  lemma UntrimmedPayloadFitsIff(body: string, maxBytes: int)
    requires 1 <= maxBytes < |Utf8(body)|
    requires !NewlineInside(Utf8(body), |Utf8(body)| - maxBytes)
    ensures KeptBytes(body, maxBytes) == Utf8(body)[|Utf8(body)| - maxBytes..]
    ensures |Utf8(DecodeReplace(KeptBytes(body, maxBytes)))| <= maxBytes
        <==> !Continuation(Utf8(body)[|Utf8(body)| - maxBytes])
    ensures |Utf8(DecodeReplace(KeptBytes(body, maxBytes)))| <= maxBytes + 6
  {
    hide *;
    UntrimmedKeepsTail(body, maxBytes);
    CutSize(body, |Utf8(body)| - maxBytes);
  }

  lemma {:induction false} CutSize(body: string, start: nat)
    requires start < |Utf8(body)|
    ensures
      var kept := Utf8(body)[start..];
      && (|Utf8(DecodeReplace(kept))| <= |kept| <==> !Continuation(Utf8(body)[start]))
      && |Utf8(DecodeReplace(kept))| <= |kept| + 6
  {
    var stray, j := CutPoint(body, start);
    hide Utf8, DecodeReplace;
    var kept := Utf8(body)[start..];
    assert kept[0] == Utf8(body)[start];
    DecodedSize(stray, body[j..]);
  }

  lemma {:induction false} UntrimmedKeepsTail(body: string, maxBytes: int)
    requires 1 <= maxBytes < |Utf8(body)|
    requires !NewlineInside(Utf8(body), |Utf8(body)| - maxBytes)
    ensures KeptBytes(body, maxBytes) == Utf8(body)[|Utf8(body)| - maxBytes..]
  {
    hide Utf8, NewlineInside, FindNewline;
    var enc := Utf8(body);
    TrimsIff(enc, maxBytes);
    hide Trims;
    assert KeptBytes(body, maxBytes) == TailBytes(enc, maxBytes);
  }

  /** The size of the decoded text, and how to see at the first byte whether it grew. */
  lemma DecodedSize(stray: seq<Byte>, s: string)
    requires |stray| <= 3 && forall i | 0 <= i < |stray| :: Continuation(stray[i])
    ensures |Utf8(DecodeReplace(stray + Utf8(s)))| == |stray + Utf8(s)| + 2 * |stray|
    ensures stray + Utf8(s) != [] ==> (stray == [] <==> !Continuation((stray + Utf8(s))[0]))
  {
    DecodeStray(stray, s);
    Utf8Concat(Marks(|stray|), s);
    ReplacementSize(|stray|);
    if s != [] { LeadByte(s[0]); }
  }

  lemma {:induction false} ReplacementSize(n: nat)
    ensures |Utf8(Marks(n))| == 3 * n
  {
    if n > 0 { ReplacementSize(n - 1); }
  }

  // ----- JSON output ---------------------------------------------------------------------------

  /** A Python list shared with the caller. */
  class RecordList {
    var items: seq<Record>

    constructor (items: seq<Record>)
      ensures this.items == items
    {
      this.items := items;
    }
  }

  /** `size` is the encoded length of the JSON dump. The caller's list is shortened in place. */
  method SerializeJson(records: RecordList, maxBytes: int, size: seq<Record> -> nat) returns (truncated: bool)
    modifies records
    ensures records.items == LongestFitting(old(records.items), maxBytes, size)
    ensures truncated <==> size(old(records.items)) > maxBytes
  {
    if size(records.items) <= maxBytes { return false; }
    while records.items != [] && size(records.items) > maxBytes
      invariant LongestFitting(records.items, maxBytes, size) == LongestFitting(old(records.items), maxBytes, size)
      decreases |records.items|
    {
      records.items := records.items[1..];
    }
    return true;
  }

  /** Drops records from the head until the rest fits. */
  function LongestFitting(records: seq<Record>, maxBytes: int, size: seq<Record> -> nat): seq<Record>
  {
    if records == [] || size(records) <= maxBytes then records else LongestFitting(records[1..], maxBytes, size)
  }

  /** The result is the longest suffix whose dump fits, or the empty list when none does. */
  lemma {:induction false} LongestFittingIsLongest(records: seq<Record>, maxBytes: int, size: seq<Record> -> nat)
    ensures
      var kept := LongestFitting(records, maxBytes, size);
      && |kept| <= |records| && kept == records[|records| - |kept|..]
      && (kept != [] ==> size(kept) <= maxBytes)
      && forall i | 0 <= i <= |records| && size(records[i..]) <= maxBytes :: |records| - i <= |kept|
  {
    if records != [] && size(records) > maxBytes {
      var kept := LongestFitting(records, maxBytes, size);
      LongestFittingIsLongest(records[1..], maxBytes, size);
      assert records[1..][|records| - 1 - |kept|..] == records[|records| - |kept|..];
      forall i | 0 <= i <= |records| && size(records[i..]) <= maxBytes ensures |records| - i <= |kept| {
        assert records[0..] == records;
        assert i > 0;
        assert records[1..][i - 1..] == records[i..];
      }
    }
  }

  // ----- Pattern filter with context ----------------------------------------------------------------

  /** Within `context` lines of a match. */
  ghost predicate Near(records: seq<Record>, matches: string -> bool, context: nat, i: int)
  {
    exists j | 0 <= j < |records| :: matches(records[j].line) && j - context <= i <= j + context
  }

  /** The records at the kept positions, in order. */
  function Pick(records: seq<Record>, keep: set<int>, upTo: nat): seq<Record>
    requires upTo <= |records|
  {
    if upTo == 0 then []
    else Pick(records, keep, upTo - 1) + (if upTo - 1 in keep then [records[upTo - 1]] else [])
  }

  function Range(lo: int, hi: int): (r: set<int>)
    ensures forall k :: k in r <==> lo <= k < hi
    decreases hi - lo
  {
    if lo >= hi then {} else {lo} + Range(lo + 1, hi)
  }

  function Span(contextLines: int): nat {
    if contextLines > 0 then contextLines else 0
  }

  method FilterWithContext(records: seq<Record>, matches: string -> bool, contextLines: int) returns (kept: seq<Record>)
    ensures kept == Pick(records, NearSet(records, matches, contextLines), |records|)
  {
    if contextLines <= 0 {
      kept := [];
      for i := 0 to |records|
        invariant kept == Pick(records, NearSet(records, matches, contextLines), i)
      {
        assert Near(records, matches, 0, i) <==> matches(records[i].line);
        if matches(records[i].line) {
          kept := kept + [records[i]];
        }
      }
      return;
    }
    var keep: set<int> := {};
    for i := 0 to |records|
      invariant keep == set k | 0 <= k < |records| && Near(records[..i], matches, contextLines, k)
    {
      ghost var before := keep;
      if matches(records[i].line) {
        var lo := if i - contextLines > 0 then i - contextLines else 0;
        var hi := if i + contextLines + 1 < |records| then i + contextLines + 1 else |records|;
        keep := keep + Range(lo, hi);
      }
      forall k | 0 <= k < |records|
        ensures k in keep <==> Near(records[..i + 1], matches, contextLines, k)
      {
        NearGrows(records, matches, contextLines, i, k);
      }
    }
    assert records[..|records|] == records;
    assert keep == NearSet(records, matches, contextLines);
    kept := [];
    for i := 0 to |records|
      invariant kept == Pick(records, keep, i)
    {
      if i in keep { kept := kept + [records[i]]; }
    }
  }

  /** What the filter shows: in order and once each, exactly the records within the context of a match. */
  lemma FilteredAre(records: seq<Record>, matches: string -> bool, contextLines: int) returns (ps: seq<nat>)
    ensures
      var kept := Pick(records, NearSet(records, matches, contextLines), |records|);
      && |kept| == |ps| && Increasing(ps)
      && (forall i | 0 <= i < |ps| :: ps[i] < |records| && kept[i] == records[ps[i]])
      && forall k | 0 <= k < |records| ::
           k in ps <==> exists j | 0 <= j < |records| ::
             matches(records[j].line) && if contextLines > 0 then j - contextLines <= k <= j + contextLines else j == k
  {
    var keep := NearSet(records, matches, contextLines);
    ps := PickedPositions(records, keep, |records|);
    hide Pick, Increasing;
    forall k | 0 <= k < |records|
      ensures k in keep <==> exists j | 0 <= j < |records| ::
        matches(records[j].line) && if contextLines > 0 then j - contextLines <= k <= j + contextLines else j == k
    {
      if Near(records, matches, Span(contextLines), k) {
        var j :| 0 <= j < |records| && matches(records[j].line) && j - Span(contextLines) <= k <= j + Span(contextLines);
      }
    }
  }

  lemma {:induction false} PickedPositions(records: seq<Record>, keep: set<int>, upTo: nat) returns (ps: seq<nat>)
    requires upTo <= |records|
    ensures |Pick(records, keep, upTo)| == |ps| && Increasing(ps)
    ensures forall i | 0 <= i < |ps| :: ps[i] < upTo && Pick(records, keep, upTo)[i] == records[ps[i]]
    ensures forall k | 0 <= k < upTo :: k in ps <==> k in keep
  {
    ps := [];
    if upTo > 0 {
      ps := PickedPositions(records, keep, upTo - 1);
      assert upTo - 1 !in ps;
      if upTo - 1 in keep { ps := ps + [upTo - 1]; }
    }
  }

  /** A non-positive context keeps just the matches. */
  ghost function NearSet(records: seq<Record>, matches: string -> bool, contextLines: int): set<int>
  {
    set k | 0 <= k < |records| && Near(records, matches, Span(contextLines), k)
  }

  lemma NearGrows(records: seq<Record>, matches: string -> bool, context: nat, i: nat, k: int)
    requires i < |records|
    ensures Near(records[..i + 1], matches, context, k)
       <==> Near(records[..i], matches, context, k) || (matches(records[i].line) && i - context <= k <= i + context)
  {
    if Near(records[..i + 1], matches, context, k) {
      var j :| 0 <= j < i + 1 && matches(records[..i + 1][j].line) && j - context <= k <= j + context;
      if j < i { assert matches(records[..i][j].line); }
    }
    if Near(records[..i], matches, context, k) {
      var j :| 0 <= j < i && matches(records[..i][j].line) && j - context <= k <= j + context;
      assert matches(records[..i + 1][j].line);
    }
    if matches(records[i].line) && i - context <= k <= i + context {
      assert matches(records[..i + 1][i].line);
    }
  }
}
