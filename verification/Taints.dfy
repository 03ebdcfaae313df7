/**
  Node taints (`tools/node_ops.py`): the taint-spec parser and its printed form, and the list
  edits of `taint_node` and `untaint_node` as JSON Patch operations on the node's taints.
*/
module Taints {
  import opened Foundations
  import opened Text

  datatype Taint = Taint(key: string, value: string, effect: string)

  datatype ParseResult = Parsed(taint: Taint) | NoColon | BadEffect | BadKey

  const VALID_TAINT_EFFECTS := ["NoSchedule", "PreferNoSchedule", "NoExecute"]

  // ----- The key pattern (`_NODE_NAME_RE`) --------------------------------------------

  predicate LowerAlnum(c: char) { 'a' <= c <= 'z' || '0' <= c <= '9' }

  predicate ValidLabel(s: string) {
    && 1 <= |s| <= 63 && LowerAlnum(s[0]) && LowerAlnum(s[|s| - 1])
    && forall i | 0 <= i < |s| :: LowerAlnum(s[i]) || s[i] == '-'
  }

  /** One or more labels separated by dots. */
  predicate ValidName(s: string)
    decreases |s|
  {
    var n := IndexOf('.', s);
    ValidLabel(s[..n]) && (n == |s| || ValidName(s[n + 1..]))
  }

  lemma {:induction false} ValidNameCharacters(s: string)
    requires ValidName(s)
    ensures s != "" && Trimmed(s) && forall i | 0 <= i < |s| :: LowerAlnum(s[i]) || s[i] == '-' || s[i] == '.'
    decreases |s|
  {
    var n := IndexOf('.', s);
    assert s[..n][0] == s[0];
    assert forall i | 0 <= i < n :: s[..n][i] == s[i];
    if n < |s| {
      ValidNameCharacters(s[n + 1..]);
      assert forall i | n < i < |s| :: s[n + 1..][i - n - 1] == s[i];
    }
  }

  /** One of the 64 characters from `k` on is a dot. */
  predicate DotSoon(s: string, k: int)
    requires 0 <= k <= |s| - 64
  {
    exists j | k <= j < k + 64 :: s[j] == '.'
  }

  /** The same without labels: legal characters, letters or digits at both ends and around every dot, no 64 characters without a dot. */
  ghost predicate NameShape(s: string) {
    && s != "" && LowerAlnum(s[0]) && LowerAlnum(s[|s| - 1])
    && (forall k | 0 <= k < |s| :: LowerAlnum(s[k]) || s[k] == '-' || s[k] == '.')
    && (forall k | 0 < k < |s| - 1 && s[k] == '.' :: AlnumAround(s, k))
    && (forall k | 0 <= k <= |s| - 64 :: DotSoon(s, k))
  }

  predicate AlnumAround(s: string, k: int)
    requires 0 < k < |s| - 1
  {
    LowerAlnum(s[k - 1]) && LowerAlnum(s[k + 1])
  }

  /** The key pattern accepts exactly the strings of that shape. */
  lemma {:induction false} ValidNameIff(s: string)
    ensures ValidName(s) <==> NameShape(s)
    decreases |s|
  {
    var n := IndexOf('.', s);
    AbsentBefore('.', s, n);
    if n == |s| {
      OneLabel(s);
    } else if 0 < n < |s| - 1 {
      ValidNameIff(s[n + 1..]);
      MoreLabels(s, n);
    } else {
      DotAtTheEnd(s, n);
    }
  }

  lemma {:induction false} OneLabel(s: string)
    requires IndexOf('.', s) == |s| && forall k | 0 <= k < |s| :: s[k] != '.'
    ensures ValidName(s) <==> NameShape(s)
  {
    assert s[..|s|] == s;
    assert ValidName(s) <==> ValidLabel(s);
    hide LowerAlnum, ValidName, IndexOf;
    if |s| >= 64 { assert !DotSoon(s, 0); }
    if ValidLabel(s) { assert NameShape(s); }
    if NameShape(s) { assert forall i | 0 <= i < |s| :: LowerAlnum(s[i]) || s[i] == '-'; }
  }

  lemma DotAtTheEnd(s: string, n: nat)
    requires n == IndexOf('.', s) < |s| && (n == 0 || n == |s| - 1)
    ensures !ValidName(s) && !NameShape(s)
  {
    if n == 0 {
      assert s[..0] == "";
    } else {
      assert s[n + 1..] == "";
      assert !ValidName("") by { assert ""[..0] == ""; }
    }
  }

  lemma {:induction false} MoreLabels(s: string, n: nat)
    requires 0 < n == IndexOf('.', s) < |s| - 1 && forall k | 0 <= k < n :: s[k] != '.'
    requires ValidName(s[n + 1..]) <==> NameShape(s[n + 1..])
    ensures ValidName(s) <==> NameShape(s)
  {
    var head, rest := s[..n], s[n + 1..];
    if ValidLabel(head) && NameShape(rest) { JoinedShape(s, n); }
    if NameShape(s) { SplitShape(s, n); }
  }

  lemma JoinedShape(s: string, n: nat)
    requires 0 < n < |s| - 1 && s[n] == '.' && forall k | 0 <= k < n :: s[k] != '.'
    requires ValidLabel(s[..n]) && NameShape(s[n + 1..])
    ensures NameShape(s)
  {
    var head, rest := s[..n], s[n + 1..];
    assert head[0] == s[0] && head[n - 1] == s[n - 1] && rest[0] == s[n + 1] && rest[|rest| - 1] == s[|s| - 1];
    assert !LowerAlnum('.');
    hide LowerAlnum;
    forall k | 0 <= k < |s| ensures LowerAlnum(s[k]) || s[k] == '-' || s[k] == '.' {
      if k < n { assert s[k] == head[k]; } else if k > n { assert s[k] == rest[k - n - 1]; }
    }
    forall k | 0 < k < |s| - 1 && s[k] == '.' ensures AlnumAround(s, k) {
      if k > n {
        assert rest[k - n - 1] == '.';
        assert AlnumAround(rest, k - n - 1);
        assert rest[k - n - 2] == s[k - 1] && rest[k - n] == s[k + 1];
      }
    }
    forall k | 0 <= k <= |s| - 64 ensures DotSoon(s, k) {
      if k <= n {
        assert s[n] == '.';
      } else {
        assert DotSoon(rest, k - n - 1);
        var j :| k - n - 1 <= j < k - n - 1 + 64 && rest[j] == '.';
        assert s[j + n + 1] == '.';
      }
    }
  }

  lemma SplitShape(s: string, n: nat)
    requires 0 < n < |s| - 1 && s[n] == '.' && (forall k | 0 <= k < n :: s[k] != '.') && NameShape(s)
    ensures ValidLabel(s[..n]) && NameShape(s[n + 1..])
  {
    var head, rest := s[..n], s[n + 1..];
    assert head[0] == s[0] && head[n - 1] == s[n - 1] && rest[0] == s[n + 1] && rest[|rest| - 1] == s[|s| - 1];
    assert AlnumAround(s, n);
    hide LowerAlnum;
    assert |s| >= 64 ==> DotSoon(s, 0);
    forall k | 0 <= k < n ensures LowerAlnum(head[k]) || head[k] == '-' { assert head[k] == s[k]; }
    forall k | 0 <= k < |rest| ensures LowerAlnum(rest[k]) || rest[k] == '-' || rest[k] == '.' { assert rest[k] == s[k + n + 1]; }
    forall k | 0 < k < |rest| - 1 && rest[k] == '.' ensures AlnumAround(rest, k) {
      assert s[k + n + 1] == '.';
      assert AlnumAround(s, k + n + 1);
      assert rest[k - 1] == s[k + n] && rest[k + 1] == s[k + n + 2];
    }
    forall k | 0 <= k <= |rest| - 64 ensures DotSoon(rest, k) {
      assert DotSoon(s, k + n + 1);
      var j :| k + n + 1 <= j < k + n + 1 + 64 && s[j] == '.';
      assert rest[j - n - 1] == '.';
    }
  }

  // ----- Parser and printer -------------------------------------------------------------

  /** The part before the last colon, once the effect is known to be valid. */
  function ParseKeyValue(keyPart: string, effect: string): ParseResult
  {
    var eq := IndexOf('=', keyPart);
    var key := Strip(keyPart[..eq]);
    var value := if eq < |keyPart| then Strip(keyPart[eq + 1..]) else "";
    if !ValidName(key) then BadKey else Parsed(Taint(key, value, effect))
  }

  function ParseTaintSpec(spec: string): ParseResult
  {
    var colon := LastIndexOf(':', spec);
    if colon == |spec| then NoColon
    else
      var effect := Strip(spec[colon + 1..]);
      if effect !in VALID_TAINT_EFFECTS then BadEffect else ParseKeyValue(spec[..colon], effect)
  }

  function Render(t: Taint): string {
    if t.value != "" then t.key + "=" + t.value + ":" + t.effect else t.key + ":" + t.effect
  }

  /** What a parsed taint looks like: valid key, trimmed value, known effect. */
  predicate Canonical(t: Taint) {
    ValidName(t.key) && Trimmed(t.value) && t.effect in VALID_TAINT_EFFECTS
  }

  lemma {:induction false} LastColonIn(front: string, effect: string)
    requires ':' !in effect
    ensures LastIndexOf(':', front + ":" + effect) == |front|
    ensures (front + ":" + effect)[..|front|] == front && (front + ":" + effect)[|front| + 1..] == effect
  {
    LastIndexUnique(':', front + ":" + effect, |front|);
  }

  lemma FirstEqualsIn(key: string, value: string)
    requires '=' !in key
    ensures IndexOf('=', key + "=" + value) == |key|
    ensures (key + "=" + value)[..|key|] == key && (key + "=" + value)[|key| + 1..] == value
  {
    assert (key + "=" + value)[..|key|] == key;
    FirstIndexUnique('=', key + "=" + value, |key|);
  }

  lemma KnownEffect(effect: string)
    requires effect in VALID_TAINT_EFFECTS
    ensures ':' !in effect && '=' !in effect && Trimmed(effect)
  {
  }

  /** Round trip: parsing the rendered form gives the taint back, `:` and `=` in the value included. */
  lemma RenderParses(t: Taint)
    requires Canonical(t)
    ensures ParseTaintSpec(Render(t)) == Parsed(t)
  {
    KnownEffect(t.effect);
    StripTrims(t.effect);
    RenderedKeyValue(t);
    var front := if t.value != "" then t.key + "=" + t.value else t.key;
    assert Render(t) == front + ":" + t.effect;
    LastColonIn(front, t.effect);
  }

  lemma RenderedKeyValue(t: Taint)
    requires ValidName(t.key) && Trimmed(t.value)
    ensures ParseKeyValue(if t.value != "" then t.key + "=" + t.value else t.key, t.effect) == Parsed(t)
  {
    ValidNameCharacters(t.key);
    StripTrims(t.key);
    StripTrims(t.value);
    assert '=' !in t.key;
    hide ValidName, Strip, Trimmed;
    if t.value != "" {
      FirstEqualsIn(t.key, t.value);
    } else {
      assert t.key[..|t.key|] == t.key;
    }
  }

  /** The printed form of a canonical taint has a `=` exactly when there is a value, and ends in `:` and the effect. */
  lemma RenderShowsValueOnlyIfAny(t: Taint)
    requires Canonical(t)
    ensures '=' in Render(t) <==> t.value != ""
    ensures Render(t) == t.key + (if t.value == "" then "" else "=" + t.value) + ":" + t.effect
  {
    ValidNameCharacters(t.key);
    KnownEffect(t.effect);
    if t.value == "" {
      assert t.key + "" == t.key;
    } else {
      assert t.key + "=" + t.value == t.key + ("=" + t.value);
      assert Render(t)[|t.key|] == '=';
    }
    hide ValidName, Trimmed;
  }

  /** Every accepted spec parses to a canonical taint, so rendering and parsing again changes nothing. */
  lemma ParsedIsCanonical(spec: string)
    requires ParseTaintSpec(spec).Parsed?
    ensures Canonical(ParseTaintSpec(spec).taint)
    ensures ParseTaintSpec(Render(ParseTaintSpec(spec).taint)) == ParseTaintSpec(spec)
  {
    var keyPart := spec[..LastIndexOf(':', spec)];
    var eq := IndexOf('=', keyPart);
    if eq < |keyPart| { StripTrims(keyPart[eq + 1..]); }
    assert Canonical(ParseTaintSpec(spec).taint) by { hide ValidName, Strip, Trimmed, LastIndexOf; }
    hide *;
    RenderParses(ParseTaintSpec(spec).taint);
  }

  ghost predicate SplitsAt(p: string, j: int, t: Taint) {
    0 <= j < |p| && p[j] == '=' && '=' !in p[..j] && Strip(p[..j]) == t.key && Strip(p[j + 1..]) == t.value
  }

  /** `p` spells key and value: `key` alone, or `key=value` split at the first `=`. */
  ghost predicate SpellsKeyValue(p: string, t: Taint) {
    || ('=' !in p && Strip(p) == t.key && t.value == "")
    || exists j :: SplitsAt(p, j, t)
  }

  ghost predicate SpellsAt(spec: string, i: int, t: Taint) {
    0 <= i < |spec| && spec[i] == ':' && ':' !in spec[i + 1..] && Strip(spec[i + 1..]) == t.effect && SpellsKeyValue(spec[..i], t)
  }

  /** `spec` spells `t`, with blanks allowed around key, value and effect. */
  ghost predicate Spells(spec: string, t: Taint) {
    exists i :: SpellsAt(spec, i, t)
  }

  lemma KeyValueSpelling(p: string, t: Taint)
    ensures ParseKeyValue(p, t.effect) == Parsed(t) <==> SpellsKeyValue(p, t) && ValidName(t.key)
  {
    var eq := IndexOf('=', p);
    assert p[..|p|] == p;
    if '=' in p {
      assert Strip(p[..eq]) == t.key && Strip(p[eq + 1..]) == t.value <==> SplitsAt(p, eq, t);
      forall j | SplitsAt(p, j, t) ensures j == eq { FirstIndexUnique('=', p, j); }
    }
  }

  /** The parser accepts exactly the spellings of taints with a valid key and a known effect. */
  lemma ParserAcceptsExactlySpellings(spec: string, t: Taint)
    ensures ParseTaintSpec(spec) == Parsed(t) <==> Spells(spec, t) && ValidName(t.key) && t.effect in VALID_TAINT_EFFECTS
  {
    var colon := LastIndexOf(':', spec);
    forall i | SpellsAt(spec, i, t) ensures i == colon { LastIndexUnique(':', spec, i); }
    if colon < |spec| && Strip(spec[colon + 1..]) == t.effect {
      KeyValueSpelling(spec[..colon], t);
      assert SpellsKeyValue(spec[..colon], t) <==> SpellsAt(spec, colon, t);
    }
  }

  /** The three effects are accepted, blanks around them aside, and no other. */
  lemma AcceptedEffects(key: string, effect: string)
    requires ValidName(key) && '=' !in key && ':' !in effect
    ensures ParseTaintSpec(key + ":" + effect).Parsed? <==>
              Strip(effect) == "NoSchedule" || Strip(effect) == "PreferNoSchedule" || Strip(effect) == "NoExecute"
    ensures ParseTaintSpec(key + ":" + effect).Parsed? ==> ParseTaintSpec(key + ":" + effect) == Parsed(Taint(key, "", Strip(effect)))
  {
    LastColonIn(key, effect);
    KeyAlone(key, Strip(effect));
    hide Strip, ValidName, IndexOf, LastIndexOf, ParseKeyValue;
  }

  lemma KeyAlone(key: string, effect: string)
    requires ValidName(key) && '=' !in key
    ensures ParseKeyValue(key, effect) == Parsed(Taint(key, "", effect))
  {
    ValidNameCharacters(key);
    StripTrims(key);
    assert IndexOf('=', key) == |key| && key[..|key|] == key;
    hide Strip, ValidName, IndexOf;
  }

  /**
    A prefixed key (`domain/name`) is refused in every spec, `key:effect` or `key=value:effect`:
    the key pattern is that of node names.
  */
  lemma PrefixedKeyRefused(key: string, rest: string)
    requires '/' in key && '=' !in key && rest != "" && (rest[0] == ':' || rest[0] == '=')
    ensures !ParseTaintSpec(key + rest).Parsed?
  {
    var spec := key + rest;
    var colon := LastIndexOf(':', spec);
    assert spec[|key|] == rest[0];
    if colon < |spec| {
      AbsentAfter(':', spec, colon + 1);
      if colon < |key| {
        EqualsInEffectRefused(spec[colon + 1..], |key| - colon - 1);
      } else {
        assert spec[..colon][..|key|] == key;
        SlashInKeyRefused(spec[..colon], |key|, Strip(spec[colon + 1..]));
      }
    }
  }

  /** No valid effect has a `=` in it. */
  lemma EqualsInEffectRefused(effect: string, at: nat)
    requires at < |effect| && effect[at] == '='
    ensures Strip(effect) !in VALID_TAINT_EFFECTS
  {
    assert !IsSpace('=') && '=' in effect;
    StripTrims(effect);
    hide Strip, IsSpace;
    if Strip(effect) in VALID_TAINT_EFFECTS { KnownEffect(Strip(effect)); }
  }

  /** A `/` before position `n` and no `=` there: the key has the `/`. */
  lemma SlashInKeyRefused(keyPart: string, n: nat, effect: string)
    requires n <= |keyPart| && '/' in keyPart[..n] && '=' !in keyPart[..n]
    ensures !ParseKeyValue(keyPart, effect).Parsed?
  {
    var eq := IndexOf('=', keyPart);
    AbsentBefore('=', keyPart, n);
    assert keyPart[..eq][..n] == keyPart[..n];
    var k :| 0 <= k < n && keyPart[..n][k] == '/';
    assert keyPart[..eq][k] == '/';
    StripTrims(keyPart[..eq]);
    assert '/' in Strip(keyPart[..eq]);
    if ValidName(Strip(keyPart[..eq])) { ValidNameCharacters(Strip(keyPart[..eq])); }
  }

  /** In particular the second example in the documentation of `taint_node` is refused. */
  lemma DocumentedExampleRefused()
    ensures !ParseTaintSpec("node.kubernetes.io/unreachable:NoExecute").Parsed?
  {
    var key := "node.kubernetes.io/unreachable";
    assert key[18] == '/';
    assert "node.kubernetes.io/unreachable:NoExecute" == key + ":NoExecute";
    PrefixedKeyRefused(key, ":NoExecute");
  }

  // ----- List edits -----------------------------------------------------------------------

  /** A taint as the apiserver stores it: the value may be missing. */
  datatype NodeTaint = NodeTaint(key: string, value: Option<string>, effect: string)

  function Plain(t: NodeTaint): Taint {
    Taint(t.key, if t.value.Some? then t.value.value else "", t.effect)
  }

  function PlainAll(ts: seq<NodeTaint>): seq<Taint>
  {
    if ts == [] then [] else PlainAll(ts[..|ts| - 1]) + [Plain(ts[|ts| - 1])]
  }

  function StoredTaint(t: Taint): NodeTaint {
    NodeTaint(t.key, Some(t.value), t.effect)
  }

  /** JSON Patch `add` at `/spec/taints/-` (section 4.1 of RFC 6902): an error without a taints array. */
  function Appended(taints: Option<seq<NodeTaint>>, t: Taint): Option<seq<NodeTaint>> {
    match taints
    case None => None
    case Some(ts) => Some(ts + [StoredTaint(t)])
  }

  predicate Clash(a: NodeTaint, b: NodeTaint) {
    a.key == b.key && a.effect == b.effect
  }

  /** The apiserver refuses a node on which two taints have the same key and effect. */
  predicate AcceptedTaints(ts: seq<NodeTaint>) {
    forall i, j | 0 <= i < j < |ts| :: !Clash(ts[i], ts[j])
  }

  /** Some taint of the list has the key and effect of `t`. */
  predicate Taken(ts: seq<NodeTaint>, t: Taint) {
    exists k | 0 <= k < |ts| :: Clash(ts[k], StoredTaint(t))
  }

  /** `taint_node`: the patched node has to be valid; None when the call raises and nothing changes. */
  function TaintNode(taints: Option<seq<NodeTaint>>, t: Taint): Option<seq<NodeTaint>> {
    match Appended(taints, t)
    case None => None
    case Some(ts) => if AcceptedTaints(ts) then Some(ts) else None
  }

  /** JSON Patch `remove` at `/spec/taints/<i>` (section 4.2 of RFC 6902). */
  function RemoveAt(ts: seq<NodeTaint>, i: nat): seq<NodeTaint>
    requires i < |ts|
  {
    ts[..i] + ts[i + 1..]
  }

  /** The index loop of `untaint_node`. */
  method FindTaint(ts: seq<NodeTaint>, t: Taint) returns (target: Option<nat>)
    ensures target == FirstMatch(ts, t)
  {
    target := None;
    for idx := 0 to |ts|
      invariant target == None
      invariant forall k | 0 <= k < idx :: Plain(ts[k]) != t
    {
      if ts[idx].key == t.key && (if ts[idx].value.Some? then ts[idx].value.value else "") == t.value && ts[idx].effect == t.effect {
        FirstMatchIs(ts, t, idx);
        return Some(idx);
      }
    }
    NoMatch(ts, t);
  }

  function FirstMatch(ts: seq<NodeTaint>, t: Taint): Option<nat>
  {
    if ts == [] then None
    else if Plain(ts[0]) == t then Some(0)
    else match FirstMatch(ts[1..], t)
      case Some(i) => Some(i + 1)
      case None => None
  }

  predicate Absent(ts: seq<NodeTaint>, t: Taint) {
    forall k | 0 <= k < |ts| :: Plain(ts[k]) != t
  }

  lemma {:induction false} FirstMatchIs(ts: seq<NodeTaint>, t: Taint, i: nat)
    requires i < |ts| && Plain(ts[i]) == t && forall k | 0 <= k < i :: Plain(ts[k]) != t
    ensures FirstMatch(ts, t) == Some(i)
  {
    if i > 0 { FirstMatchIs(ts[1..], t, i - 1); }
  }

  lemma {:induction false} NoMatch(ts: seq<NodeTaint>, t: Taint)
    requires forall k | 0 <= k < |ts| :: Plain(ts[k]) != t
    ensures FirstMatch(ts, t) == None
  {
    if ts != [] { NoMatch(ts[1..], t); }
  }

  /** How `untaint_node` with a spec ends: nothing sent, the index removed, or the patch refused. */
  datatype UntaintOutcome = NotPresent | Removed(taints: seq<NodeTaint>) | PatchRefused

  /**
    `untaint_node` with a spec: it takes the index from the list it `read` and removes that
    index from the list the node has `now` (an index out of range is an error).
  */
  function Untaint(read: Option<seq<NodeTaint>>, now: Option<seq<NodeTaint>>, t: Taint): UntaintOutcome
  {
    match FirstMatch(if read.Some? then read.value else [], t)
    case None => NotPresent
    case Some(i) => if now.Some? && i < |now.value| then Removed(RemoveAt(now.value, i)) else PatchRefused
  }

  /** The node's taints afterwards when nobody writes between the read and the patch. */
  function UntaintNode(taints: Option<seq<NodeTaint>>, t: Taint): Option<seq<NodeTaint>>
  {
    match Untaint(taints, taints, t)
    case Removed(ts) => Some(ts)
    case _ => taints
  }

  lemma {:induction false} FirstMatchIn(ts: seq<NodeTaint>, t: Taint)
    ensures
      match FirstMatch(ts, t)
      case Some(i) => i < |ts| && Plain(ts[i]) == t
      case None => forall k | 0 <= k < |ts| :: Plain(ts[k]) != t
  {
    if ts != [] {
      FirstMatchIn(ts[1..], t);
      assert forall k | 0 < k < |ts| :: ts[k] == ts[1..][k - 1];
    }
  }

  /** The index `untaint_node` takes: the first taint with that key and effect and that value, a missing value being "". */
  lemma FirstMatchIsFirst(ts: seq<NodeTaint>, t: Taint, i: nat)
    ensures FirstMatch(ts, t) == Some(i) <==> i < |ts| && Agrees(ts[i], t) && forall k | 0 <= k < i :: !Agrees(ts[k], t)
    ensures FirstMatch(ts, t) == None <==> forall k | 0 <= k < |ts| :: !Agrees(ts[k], t)
  {
    forall x: NodeTaint ensures Agrees(x, t) <==> Plain(x) == t { }
    FirstMatchIn(ts, t);
    if i < |ts| && Agrees(ts[i], t) && forall k | 0 <= k < i :: !Agrees(ts[k], t) { FirstMatchIs(ts, t, i); }
    if FirstMatch(ts, t) == Some(i) { FirstMatchHasNoEarlier(ts, t, i); }
    hide FirstMatch, Plain, Agrees;
    if forall k | 0 <= k < |ts| :: !Agrees(ts[k], t) { assert forall k | 0 <= k < |ts| :: Plain(ts[k]) != t; }
  }

  predicate Agrees(x: NodeTaint, t: Taint) {
    x.key == t.key && x.effect == t.effect && (x.value == Some(t.value) || (x.value.None? && t.value == ""))
  }

  lemma {:induction false} FirstMatchHasNoEarlier(ts: seq<NodeTaint>, t: Taint, i: nat)
    requires FirstMatch(ts, t) == Some(i)
    ensures forall k | 0 <= k < i && k < |ts| :: Plain(ts[k]) != t
  {
    hide Plain;
    if i > 0 {
      FirstMatchHasNoEarlier(ts[1..], t, i - 1);
      assert forall k | 0 < k < |ts| :: ts[k] == ts[1..][k - 1];
    }
  }

  /** Removing an index leaves the other taints as they are, in order. */
  lemma RemoveAtKeepsOthers(ts: seq<NodeTaint>, i: nat, k: nat)
    requires i < |ts|
    ensures |RemoveAt(ts, i)| == |ts| - 1
    ensures k < |ts| - 1 ==> RemoveAt(ts, i)[k] == if k < i then ts[k] else ts[k + 1]
  {
  }

  lemma {:induction false} PlainConcat(a: seq<NodeTaint>, b: seq<NodeTaint>)
    ensures PlainAll(a + b) == PlainAll(a) + PlainAll(b)
  {
    hide Plain;
    if b == [] {
      assert a + b == a;
    } else {
      var n := |b| - 1;
      PlainConcat(a, b[..n]);
      assert (a + b)[..|a + b| - 1] == a + b[..n];
    }
  }

  /** Removing an element takes exactly that taint out of the multiset. */
  lemma {:induction false} RemoveTakesOne(ts: seq<NodeTaint>, i: nat)
    requires i < |ts|
    ensures multiset(PlainAll(ts)) == multiset(PlainAll(RemoveAt(ts, i))) + multiset{Plain(ts[i])}
  {
    hide PlainAll, Plain;
    var front, one, back := ts[..i], [ts[i]], ts[i + 1..];
    assert ts == front + (one + back);
    PlainConcat(front, one + back);
    PlainConcat(one, back);
    PlainConcat(front, back);
    PlainOne(ts[i]);
  }

  lemma PlainOne(t: NodeTaint)
    ensures PlainAll([t]) == [Plain(t)]
  {
    assert [t][..0] == [];
  }

  lemma CancelOne(a: multiset<Taint>, b: multiset<Taint>, t: Taint)
    requires a + multiset{t} == b + multiset{t}
    ensures a == b
  {
    assert a == (a + multiset{t}) - multiset{t};
    assert b == (b + multiset{t}) - multiset{t};
  }

  lemma AddedThenRemoved(ts: seq<NodeTaint>, added: seq<NodeTaint>, t: Taint, x: NodeTaint)
    requires added == ts + [x] && Plain(x) == t
    ensures
      && FirstMatch(added, t).Some? && FirstMatch(added, t).value < |added|
      && multiset(PlainAll(RemoveAt(added, FirstMatch(added, t).value))) == multiset(PlainAll(ts))
      && ((forall k | 0 <= k < |ts| :: Plain(ts[k]) != t) ==> RemoveAt(added, FirstMatch(added, t).value) == ts)
  {
    hide PlainAll, Plain, FirstMatch;
    assert added[|ts|] == x;
    FirstMatchIn(added, t);
    var i := FirstMatch(added, t).value;
    assert RemoveAt(added, |ts|) == ts;
    RemoveTakesOne(added, i);
    RemoveTakesOne(added, |ts|);
    CancelOne(multiset(PlainAll(RemoveAt(added, i))), multiset(PlainAll(ts)), t);
    if forall k | 0 <= k < |ts| :: Plain(ts[k]) != t {
      assert forall k | 0 <= k < |ts| :: added[k] == ts[k];
      FirstMatchIs(added, t, |ts|);
    }
  }

  /**
    The two JSON Patches by themselves, duplicates allowed: appending a taint and untainting it
    preserves the multiset of taints, and the exact list when the taint was not there before.
  */
  lemma AppendThenUntaint(ts: seq<NodeTaint>, t: Taint)
    ensures
      var back := UntaintNode(Appended(Some(ts), t), t);
      && back.Some?
      && multiset(PlainAll(back.value)) == multiset(PlainAll(ts))
      && (Absent(ts, t) ==> back == Some(ts))
  {
    hide PlainAll, FirstMatch, RemoveAt;
    AddedThenRemoved(ts, ts + [StoredTaint(t)], t, StoredTaint(t));
  }

  /** A valid list stays valid exactly when no taint has the new one's key and effect. */
  lemma AcceptedIffNotTaken(ts: seq<NodeTaint>, t: Taint)
    ensures AcceptedTaints(ts + [StoredTaint(t)]) <==> AcceptedTaints(ts) && !Taken(ts, t)
  {
    var added := ts + [StoredTaint(t)];
    hide Clash;
    assert forall k | 0 <= k < |ts| :: added[k] == ts[k];
    assert added[|ts|] == StoredTaint(t);
    if AcceptedTaints(added) {
      forall k | 0 <= k < |ts| ensures !Clash(ts[k], StoredTaint(t)) { assert !Clash(added[k], added[|ts|]); }
      forall i, j | 0 <= i < j < |ts| ensures !Clash(ts[i], ts[j]) { assert !Clash(added[i], added[j]); }
    }
  }

  /**
    Taint then untaint on a node the apiserver accepts: tainting succeeds exactly on a node that
    has a taints array in which no taint has that key and effect, and then the node is accepted
    again and untainting restores the exact list.
  */
  lemma TaintThenUntaint(taints: Option<seq<NodeTaint>>, t: Taint)
    requires taints.Some? ==> AcceptedTaints(taints.value)
    ensures TaintNode(taints, t).Some? <==> taints.Some? && !Taken(taints.value, t)
    ensures TaintNode(taints, t).Some? ==>
              AcceptedTaints(TaintNode(taints, t).value) && UntaintNode(TaintNode(taints, t), t) == taints
  {
    if taints.Some? {
      AcceptedIffNotTaken(taints.value, t);
      if !Taken(taints.value, t) {
        forall k | 0 <= k < |taints.value| ensures Plain(taints.value[k]) != t {
          assert !Clash(taints.value[k], StoredTaint(t));
        }
        AppendThenUntaint(taints.value, t);
      }
      hide AcceptedTaints, Taken, UntaintNode, PlainAll;
    }
  }

  /**
    After a refusal an untaint is not the inverse: it takes away the very taint when the node
    had it already, and leaves the node alone when only key and effect agree.
  */
  lemma UntaintAfterRefusal(ts: seq<NodeTaint>, t: Taint)
    requires AcceptedTaints(ts) && TaintNode(Some(ts), t).None?
    ensures Taken(ts, t)
    ensures Absent(ts, t) ==> UntaintNode(Some(ts), t) == Some(ts)
    ensures !Absent(ts, t) ==>
              var back := UntaintNode(Some(ts), t);
              back.Some? && multiset(PlainAll(ts)) == multiset(PlainAll(back.value)) + multiset{t}
  {
    AcceptedIffNotTaken(ts, t);
    UntaintAlone(ts, t);
    hide UntaintNode, PlainAll, Absent;
  }

  lemma UntaintAlone(ts: seq<NodeTaint>, t: Taint)
    ensures Absent(ts, t) ==> UntaintNode(Some(ts), t) == Some(ts)
    ensures !Absent(ts, t) ==>
              var back := UntaintNode(Some(ts), t);
              back.Some? && multiset(PlainAll(ts)) == multiset(PlainAll(back.value)) + multiset{t}
  {
    FirstMatchIn(ts, t);
    hide PlainAll, FirstMatch, Plain, RemoveAt;
    match FirstMatch(ts, t) {
      case None => assert Absent(ts, t);
      case Some(i) =>
        assert !Absent(ts, t);
        RemoveTakesOne(ts, i);
    }
  }

  // ----- Others' edits between the read and the patch -----------------------------------------

  /** It removed exactly one `t` and nothing else. */
  predicate TookExactly(o: UntaintOutcome, now: Option<seq<NodeTaint>>, t: Taint) {
    && o.Removed? && now.Some?
    && multiset(PlainAll(now.value)) == multiset(PlainAll(o.taints)) + multiset{t}
  }

  /**
    Untaint takes exactly the named taint out of whatever list the node has by then if and only
    if the position it read holds that taint; with the taint absent from what it read it sends
    nothing, and it is refused exactly when the position is gone.
  */
  lemma UntaintTakesExactlyIff(read: Option<seq<NodeTaint>>, now: Option<seq<NodeTaint>>, t: Taint)
    ensures
      var o := Untaint(read, now, t);
      match FirstMatch(if read.Some? then read.value else [], t)
      case None => o.NotPresent?
      case Some(i) =>
        && (o.PatchRefused? <==> now.None? || i >= |now.value|)
        && (TookExactly(o, now, t) <==> now.Some? && i < |now.value| && Plain(now.value[i]) == t)
  {
    var i := FirstMatch(if read.Some? then read.value else [], t);
    hide PlainAll, FirstMatch, RemoveAt, Plain;
    if i.Some? && now.Some? && i.value < |now.value| {
      RemoveTakesOne(now.value, i.value);
      SameTaintTaken(multiset(PlainAll(RemoveAt(now.value, i.value))), t, Plain(now.value[i.value]));
    }
  }

  lemma SameTaintTaken(rest: multiset<Taint>, t: Taint, u: Taint)
    ensures rest + multiset{t} == rest + multiset{u} <==> t == u
  {
    if t != u { assert (rest + multiset{t})[t] == rest[t] + 1; }
  }

  /** One edit by another client: JSON Patch `add` or `remove` at a position, or a whole new list. */
  datatype Edit = Insert(at: nat, taint: NodeTaint) | Delete(at: nat) | Overwrite(taints: seq<NodeTaint>)

  /** An edit at a position that does not exist is refused and changes nothing. */
  function AfterEdit(ts: seq<NodeTaint>, e: Edit): seq<NodeTaint> {
    match e
    case Insert(at, x) => if at <= |ts| then ts[..at] + [x] + ts[at..] else ts
    case Delete(at) => if at < |ts| then RemoveAt(ts, at) else ts
    case Overwrite(list) => list
  }

  function AfterEdits(ts: seq<NodeTaint>, edits: seq<Edit>): seq<NodeTaint>
    decreases |edits|
  {
    if edits == [] then ts else AfterEdits(AfterEdit(ts, edits[0]), edits[1..])
  }

  /** Where the element at position `i` is after the edit, if it is still there. */
  function Shifted(ts: seq<NodeTaint>, i: nat, e: Edit): Option<nat>
  {
    match e
    case Insert(at, _) => Some(if at <= i && at <= |ts| then i + 1 else i)
    case Delete(at) => if at == i then None else Some(if at < i then i - 1 else i)
    case Overwrite(_) => None
  }

  function ShiftedBy(ts: seq<NodeTaint>, i: nat, edits: seq<Edit>): Option<nat>
    decreases |edits|
  {
    if edits == [] then Some(i)
    else match Shifted(ts, i, edits[0])
      case None => None
      case Some(j) => ShiftedBy(AfterEdit(ts, edits[0]), j, edits[1..])
  }

  predicate BringsIn(t: Taint, e: Edit) {
    match e
    case Insert(_, x) => Plain(x) == t
    case Delete(_) => false
    case Overwrite(ts) => !Absent(ts, t)
  }

  predicate BringsNo(t: Taint, edits: seq<Edit>) {
    forall k | 0 <= k < |edits| :: !BringsIn(t, edits[k])
  }

  predicate OnlyAt(ts: seq<NodeTaint>, t: Taint, i: nat) {
    i < |ts| && forall k | 0 <= k < |ts| :: Plain(ts[k]) == t <==> k == i
  }

  lemma EditMovesElement(ts: seq<NodeTaint>, i: nat, e: Edit)
    requires i < |ts| && Shifted(ts, i, e).Some?
    ensures
      var j := Shifted(ts, i, e).value;
      j < |AfterEdit(ts, e)| && AfterEdit(ts, e)[j] == ts[i]
  {
  }

  /** `ShiftedBy` follows the element. */
  lemma {:induction false} EditsMoveElement(ts: seq<NodeTaint>, i: nat, edits: seq<Edit>)
    requires i < |ts| && ShiftedBy(ts, i, edits).Some?
    ensures
      var j := ShiftedBy(ts, i, edits).value;
      j < |AfterEdits(ts, edits)| && AfterEdits(ts, edits)[j] == ts[i]
    decreases |edits|
  {
    if edits != [] {
      EditMovesElement(ts, i, edits[0]);
      EditsMoveElement(AfterEdit(ts, edits[0]), Shifted(ts, i, edits[0]).value, edits[1..]);
    }
  }

  /** Where the element at position `k` after the edit was before it; None when the edit brought it in. */
  function Origin(ts: seq<NodeTaint>, e: Edit, k: nat): Option<nat>
  {
    match e
    case Insert(at, _) => if at > |ts| || k < at then Some(k) else if k == at then None else Some(k - 1)
    case Delete(at) => Some(if at >= |ts| || k < at then k else k + 1)
    case Overwrite(_) => None
  }

  lemma OriginIs(ts: seq<NodeTaint>, e: Edit, k: nat, t: Taint)
    requires k < |AfterEdit(ts, e)| && !BringsIn(t, e)
    ensures
      match Origin(ts, e, k)
      case None => Plain(AfterEdit(ts, e)[k]) != t
      case Some(i) => i < |ts| && AfterEdit(ts, e)[k] == ts[i] && Shifted(ts, i, e) == Some(k)
  {
    hide Plain;
  }

  lemma EditKeepsAbsent(ts: seq<NodeTaint>, t: Taint, e: Edit)
    requires Absent(ts, t) && !BringsIn(t, e)
    ensures Absent(AfterEdit(ts, e), t)
  {
    hide Plain, AfterEdit, BringsIn;
    forall k | 0 <= k < |AfterEdit(ts, e)| ensures Plain(AfterEdit(ts, e)[k]) != t { OriginIs(ts, e, k, t); }
  }

  lemma EditKeepsOnlyOne(ts: seq<NodeTaint>, t: Taint, i: nat, e: Edit)
    requires OnlyAt(ts, t, i) && !BringsIn(t, e)
    ensures
      match Shifted(ts, i, e)
      case None => Absent(AfterEdit(ts, e), t)
      case Some(j) => OnlyAt(AfterEdit(ts, e), t, j)
  {
    var now := AfterEdit(ts, e);
    if Shifted(ts, i, e).Some? { EditMovesElement(ts, i, e); }
    hide Plain, AfterEdit, BringsIn, Shifted, Origin;
    forall k | 0 <= k < |now| ensures Plain(now[k]) == t <==> Shifted(ts, i, e) == Some(k) {
      OriginIs(ts, e, k, t);
    }
  }

  lemma {:induction false} EditsKeepAbsent(ts: seq<NodeTaint>, t: Taint, edits: seq<Edit>)
    requires Absent(ts, t) && BringsNo(t, edits)
    ensures Absent(AfterEdits(ts, edits), t)
    decreases |edits|
  {
    hide Absent, BringsIn, AfterEdit;
    if edits != [] {
      EditKeepsAbsent(ts, t, edits[0]);
      EditsKeepAbsent(AfterEdit(ts, edits[0]), t, edits[1..]);
    }
  }

  lemma {:induction false} EditsKeepOnlyOne(ts: seq<NodeTaint>, t: Taint, i: nat, edits: seq<Edit>)
    requires OnlyAt(ts, t, i) && BringsNo(t, edits)
    ensures
      match ShiftedBy(ts, i, edits)
      case None => Absent(AfterEdits(ts, edits), t)
      case Some(j) => OnlyAt(AfterEdits(ts, edits), t, j)
    decreases |edits|
  {
    hide Absent, OnlyAt, BringsIn, AfterEdit, Shifted;
    if edits != [] {
      var e := edits[0];
      EditKeepsOnlyOne(ts, t, i, e);
      match Shifted(ts, i, e) {
        case None => EditsKeepAbsent(AfterEdit(ts, e), t, edits[1..]);
        case Some(j) => EditsKeepOnlyOne(AfterEdit(ts, e), t, j, edits[1..]);
      }
    }
  }

  /** When others leave the taint's position where it was, untaint removes exactly that taint. */
  lemma {:induction false} UntaintIsExactWhenUnmoved(read: seq<NodeTaint>, t: Taint, edits: seq<Edit>, i: nat)
    requires FirstMatch(read, t) == Some(i) && ShiftedBy(read, i, edits) == Some(i)
    ensures TookExactly(Untaint(Some(read), Some(AfterEdits(read, edits)), t), Some(AfterEdits(read, edits)), t)
  {
    FirstMatchIn(read, t);
    UntaintTakesExactlyIff(Some(read), Some(AfterEdits(read, edits)), t);
    EditsMoveElement(read, i, edits);
    hide FirstMatch, TookExactly, Untaint, AfterEdits, ShiftedBy, Plain;
  }

  /**
    Over any sequence of edits by others: when the list had the taint once and no edit brings it
    in again, untaint removes exactly that taint if and only if they leave its position where it was.
  */
  lemma {:induction false} UntaintSurvivesEditsIff(read: seq<NodeTaint>, t: Taint, edits: seq<Edit>, i: nat)
    requires OnlyAt(read, t, i) && BringsNo(t, edits)
    ensures FirstMatch(read, t) == Some(i)
    ensures TookExactly(Untaint(Some(read), Some(AfterEdits(read, edits)), t), Some(AfterEdits(read, edits)), t)
       <==> ShiftedBy(read, i, edits) == Some(i)
  {
    FirstMatchIs(read, t, i);
    UntaintTakesExactlyIff(Some(read), Some(AfterEdits(read, edits)), t);
    EditsKeepOnlyOne(read, t, i, edits);
    hide FirstMatch, TookExactly, Untaint, AfterEdits, ShiftedBy, BringsNo, Plain;
  }

  /** Edits behind the taint, such as tainting the node with something else, never shift it. */
  lemma {:induction false} EditsBehindAreSafe(ts: seq<NodeTaint>, i: nat, edits: seq<Edit>)
    requires i < |ts| && forall e <- edits :: !e.Overwrite? && e.at > i
    ensures ShiftedBy(ts, i, edits) == Some(i)
    decreases |edits|
  {
    if edits != [] {
      EditMovesElement(ts, i, edits[0]);
      EditsBehindAreSafe(AfterEdit(ts, edits[0]), i, edits[1..]);
    }
  }

  /**
    The patch names a position, not a taint: if another client removes an earlier taint between
    the read and the patch, a different taint goes while the named one stays.
  */
  lemma StaleIndexRemovesAnother(a: Taint, b: Taint, c: Taint)
    requires a != b && b != c
    ensures
      var read := [StoredTaint(a), StoredTaint(b), StoredTaint(c)];
      var now := Some(AfterEdits(read, [Delete(0)]));
      && now == Some([StoredTaint(b), StoredTaint(c)])
      && Untaint(Some(read), now, b) == Removed([StoredTaint(b)])
      && !TookExactly(Untaint(Some(read), now, b), now, b)
  {
    var read := [StoredTaint(a), StoredTaint(b), StoredTaint(c)];
    FirstMatchIs(read, b, 1);
    var now := [StoredTaint(b), StoredTaint(c)];
    assert AfterEdits(read, [Delete(0)]) == AfterEdit(read, Delete(0)) == now;
    assert RemoveAt(now, 1) == [StoredTaint(b)];
    UntaintTakesExactlyIff(Some(read), Some(now), b);
    assert Plain(now[1]) == c;
  }

  // ----- Summary -----------------------------------------------------------------------------

  /** `_node_taint_summary`: every distinct taint once, in order of first occurrence. */
  method DistinctTaints(ts: seq<NodeTaint>) returns (parts: seq<Taint>)
    ensures forall t :: t in parts <==> exists k | 0 <= k < |ts| :: Plain(ts[k]) == t
    ensures FirstSeenInOrder(ts, parts)
    ensures forall i, j | 0 <= i < j < |parts| :: parts[i] != parts[j]
  {
    parts := [];
    var seen: set<Taint> := {};
    for i := 0 to |ts|
      invariant forall t :: t in parts <==> exists k | 0 <= k < i :: Plain(ts[k]) == t
      invariant forall t :: t in seen <==> t in parts
      invariant FirstSeenInOrder(ts, parts)
      invariant forall t <- parts :: FirstMatch(ts, t).value < i
    {
      var triple := Plain(ts[i]);
      if triple in seen { continue; }
      FirstMatchIs(ts, triple, i);
      seen := seen + {triple};
      parts := parts + [triple];
    }
  }

  /** Each part occurs in the list, and the parts are sorted by where they occur first. */
  ghost predicate FirstSeenInOrder(ts: seq<NodeTaint>, parts: seq<Taint>) {
    && (forall t <- parts :: FirstMatch(ts, t).Some?)
    && forall i, j | 0 <= i < j < |parts| :: FirstMatch(ts, parts[i]).value < FirstMatch(ts, parts[j]).value
  }
}
