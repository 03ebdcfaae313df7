/**
  The generic write tools of `tools/generic.py` (`replace_resource`, `_apply_yaml_records`)
  and the gate in front of them (`Settings.ns_allowed` in `config.py`), run against an
  apiserver that other clients write to between any two of our calls.

  The apiserver is an assumption, not code under verification: every write gets a fresh
  revision as its resourceVersion, and a PUT is refused when the stored version differs from
  the one in the body (Kubernetes API Conventions, "Concurrency Control and Consistency").
*/
module ResourceWrites {
  import opened Foundations

  // ----- The gate -------------------------------------------------------------------------

  datatype Settings = Settings(readOnly: bool, allowlist: Option<seq<string>>)

  function NsAllowed(s: Settings, namespace: Option<string>): bool
  {
    if s.readOnly then false
    else if s.allowlist.None? then true
    else if namespace.None? then false
    else namespace.value in s.allowlist.value
  }

  // ----- The apiserver ----------------------------------------------------------------------

  datatype Ref = Ref(kind: string, namespace: string, name: string)

  datatype Stored = Stored(version: nat, body: string)

  datatype Server = Server(objects: map<Ref, Stored>, revision: nat)

  datatype External = Put(ref: Ref, body: string) | Delete(ref: Ref)

  /** Why a call fails; `Refused` is any other ApiException. */
  datatype Failure = UnknownKind | NotFound | Conflict | Refused

  predicate VersionsOk(s: Server) {
    forall ref <- s.objects :: s.objects[ref].version <= s.revision
  }

  function Written(s: Server, ref: Ref, body: string): Server {
    Server(s.objects[ref := Stored(s.revision + 1, body)], s.revision + 1)
  }

  function Interfere(s: Server, writes: seq<External>): Server
  {
    if writes == [] then s
    else
      var m := Interfere(s, writes[..|writes| - 1]);
      match writes[|writes| - 1]
      case Put(ref, body) => Written(m, ref, body)
      case Delete(ref) => m.(objects := m.objects - {ref})
  }

  /** PUT with the version the client read. */
  function PutIfUnchanged(s: Server, ref: Ref, body: string, version: nat): (Server, Option<Failure>)
  {
    if ref !in s.objects then (s, Some(NotFound))
    else if s.objects[ref].version != version then (s, Some(Conflict))
    else (Written(s, ref, body), None)
  }

  function PatchExisting(s: Server, ref: Ref, patch: string, merge: (string, string) -> string): (Server, Option<Failure>)
  {
    if ref !in s.objects then (s, Some(NotFound))
    else (Written(s, ref, merge(s.objects[ref].body, patch)), None)
  }

  function CreateNew(s: Server, ref: Ref, body: string): (Server, Option<Failure>)
  {
    if ref in s.objects then (s, Some(Conflict)) else (Written(s, ref, body), None)
  }

  class ApiServer {
    var objects: map<Ref, Stored>
    var revision: nat

    function View(): Server
      reads this
    {
      Server(objects, revision)
    }

    constructor (s: Server)
      ensures View() == s
    {
      objects, revision := s.objects, s.revision;
    }

    /** The object a read of `ref` would return. */
    function At(ref: Ref): Option<Stored>
      reads this
    {
      if ref in objects then Some(objects[ref]) else None
    }

    method Replace(ref: Ref, body: string, version: nat) returns (failure: Option<Failure>)
      modifies this
      ensures (View(), failure) == PutIfUnchanged(old(View()), ref, body, version)
    {
      if ref !in objects { return Some(NotFound); }
      if objects[ref].version != version { return Some(Conflict); }
      revision := revision + 1;
      objects := objects[ref := Stored(revision, body)];
      return None;
    }

    method Patch(ref: Ref, patch: string, merge: (string, string) -> string) returns (failure: Option<Failure>)
      modifies this
      ensures (View(), failure) == PatchExisting(old(View()), ref, patch, merge)
    {
      if ref !in objects { return Some(NotFound); }
      revision := revision + 1;
      objects := objects[ref := Stored(revision, merge(objects[ref].body, patch))];
      return None;
    }

    method Create(ref: Ref, body: string) returns (failure: Option<Failure>)
      modifies this
      ensures (View(), failure) == CreateNew(old(View()), ref, body)
    {
      if ref in objects { return Some(Conflict); }
      revision := revision + 1;
      objects := objects[ref := Stored(revision, body)];
      return None;
    }

    /** Everybody else's writes, up to our next call. */
    method OthersWrite(writes: seq<External>)
      modifies this
      ensures View() == Interfere(old(View()), writes)
    {
      for i := 0 to |writes|
        invariant View() == Interfere(old(View()), writes[..i])
      {
        assert writes[..i + 1][..i] == writes[..i];
        match writes[i] {
          case Put(ref, body) =>
            revision := revision + 1;
            objects := objects[ref := Stored(revision, body)];
          case Delete(ref) =>
            objects := objects - {ref};
        }
      }
      assert writes[..|writes|] == writes;
    }
  }

  // ----- One document ---------------------------------------------------------------------------

  datatype Doc = Doc(apiVersion: string, kind: string, namespace: Option<string>, name: string, body: string)

  function RefOf(d: Doc): Ref {
    Ref(d.kind, if d.namespace.Some? then d.namespace.value else "", d.name)
  }

  /** What happens around the two calls made for one document: others' writes, and injected failures. */
  datatype Visit = Visit(beforeGet: seq<External>, getFails: Option<Failure>, beforeWrite: seq<External>, writeFails: Option<Failure>)

  /** One of our writes: the object the client read, the one it overwrote, and the body it sent. */
  datatype Write = Write(ref: Ref, read: Option<Stored>, overwritten: Option<Stored>, sent: string)

  datatype Step = Wrote(server: Server, write: Write) | Failed(server: Server, failure: Failure)

  type Kinds = set<(string, string)>

  function ReplaceDoc(s: Server, kinds: Kinds, d: Doc, v: Visit): Step
  {
    if (d.apiVersion, d.kind) !in kinds then Failed(s, UnknownKind)
    else
      var ref := RefOf(d);
      var s1 := Interfere(s, v.beforeGet);
      if v.getFails.Some? then Failed(s1, v.getFails.value)
      else if ref !in s1.objects then Failed(s1, NotFound)
      else
        var read := s1.objects[ref];
        var s2 := Interfere(s1, v.beforeWrite);
        if v.writeFails.Some? then Failed(s2, v.writeFails.value)
        else
          var (s3, failure) := PutIfUnchanged(s2, ref, d.body, read.version);
          if failure.Some? then Failed(s3, failure.value)
          else Wrote(s3, Write(ref, Some(read), Some(s2.objects[ref]), d.body))
  }

  function ApplyDoc(s: Server, kinds: Kinds, d: Doc, v: Visit, merge: (string, string) -> string): Step
  {
    if (d.apiVersion, d.kind) !in kinds then Failed(s, UnknownKind)
    else
      var ref := RefOf(d);
      var s1 := Interfere(s, v.beforeGet);
      if v.getFails.Some? && v.getFails != Some(NotFound) then Failed(s1, v.getFails.value)
      else
        var existed := v.getFails.None? && ref in s1.objects;
        var s2 := Interfere(s1, v.beforeWrite);
        if v.writeFails.Some? then Failed(s2, v.writeFails.value)
        else
          var (s3, failure) := if existed then PatchExisting(s2, ref, d.body, merge) else CreateNew(s2, ref, d.body);
          if failure.Some? then Failed(s3, failure.value)
          else Wrote(s3, Write(ref, if existed then Some(s1.objects[ref]) else None,
                               if existed then Some(s2.objects[ref]) else None, d.body))
  }

  // ----- Whole manifests --------------------------------------------------------------------------

  datatype Tool = Replace | Apply(merge: (string, string) -> string)

  function StepDoc(tool: Tool, s: Server, kinds: Kinds, d: Doc, v: Visit): Step {
    match tool
    case Replace => ReplaceDoc(s, kinds, d, v)
    case Apply(merge) => ApplyDoc(s, kinds, d, v, merge)
  }

  /** `stoppedAt` is the document that failed, if any. */
  datatype Run = Run(server: Server, writes: seq<Write>, stoppedAt: Option<(nat, Failure)>)

  /** Documents `i` onwards, in order, up to the first failure. */
  function RunFrom(tool: Tool, s: Server, kinds: Kinds, docs: seq<Doc>, visits: seq<Visit>, i: nat): Run
    requires |visits| == |docs| && i <= |docs|
    decreases |docs| - i
  {
    if i == |docs| then Run(s, [], None)
    else match StepDoc(tool, s, kinds, docs[i], visits[i])
      case Failed(s', failure) => Run(s', [], Some((i, failure)))
      case Wrote(s', w) =>
        var rest := RunFrom(tool, s', kinds, docs, visits, i + 1);
        rest.(writes := [w] + rest.writes)
  }

  datatype Outcome = ReadOnly | EmptyManifest | Denied(namespace: Option<string>) | Ran(run: Run)

  function FirstDenied(settings: Settings, docs: seq<Doc>): Option<Doc>
  {
    if docs == [] then None
    else if !NsAllowed(settings, docs[0].namespace) then Some(docs[0])
    else FirstDenied(settings, docs[1..])
  }

  function WriteManifest(tool: Tool, settings: Settings, s: Server, kinds: Kinds, docs: seq<Doc>, visits: seq<Visit>): Outcome
    requires |visits| == |docs|
  {
    if settings.readOnly then ReadOnly
    else if docs == [] then EmptyManifest
    else if FirstDenied(settings, docs).Some? then Denied(FirstDenied(settings, docs).value.namespace)
    else Ran(RunFrom(tool, s, kinds, docs, visits, 0))
  }

  function ServerAfter(s: Server, o: Outcome): Server {
    if o.Ran? then o.run.server else s
  }

  function WritesOf(o: Outcome): seq<Write> {
    if o.Ran? then o.run.writes else []
  }

  /** The loop body of `replace_resource`: read, stamp the version read, PUT. */
  method ReplaceOne(api: ApiServer, kinds: Kinds, d: Doc, v: Visit) returns (failure: Option<Failure>, write: Option<Write>)
    modifies api
    ensures
      match ReplaceDoc(old(api.View()), kinds, d, v)
      case Failed(s', f) => api.View() == s' && failure == Some(f) && write == None
      case Wrote(s', w) => api.View() == s' && failure == None && write == Some(w)
  {
    if (d.apiVersion, d.kind) !in kinds { return Some(UnknownKind), None; }
    var ref := RefOf(d);
    api.OthersWrite(v.beforeGet);
    if v.getFails.Some? { return v.getFails, None; }
    var read := api.At(ref);
    if read.None? { return Some(NotFound), None; }
    api.OthersWrite(v.beforeWrite);
    if v.writeFails.Some? { return v.writeFails, None; }
    var overwritten := api.At(ref);
    failure := api.Replace(ref, d.body, read.value.version);
    write := if failure.Some? then None else Some(Write(ref, read, overwritten, d.body));
  }

  /** The loop body of `_apply_yaml_records`: patch what exists, create what does not. */
  method ApplyOne(api: ApiServer, kinds: Kinds, d: Doc, v: Visit, merge: (string, string) -> string)
    returns (failure: Option<Failure>, write: Option<Write>)
    modifies api
    ensures
      match ApplyDoc(old(api.View()), kinds, d, v, merge)
      case Failed(s', f) => api.View() == s' && failure == Some(f) && write == None
      case Wrote(s', w) => api.View() == s' && failure == None && write == Some(w)
  {
    if (d.apiVersion, d.kind) !in kinds { return Some(UnknownKind), None; }
    var ref := RefOf(d);
    api.OthersWrite(v.beforeGet);
    var read := None;
    if v.getFails.None? {
      read := api.At(ref);
    } else if v.getFails != Some(NotFound) {
      return v.getFails, None;
    }
    api.OthersWrite(v.beforeWrite);
    if v.writeFails.Some? { return v.writeFails, None; }
    var overwritten := if read.Some? then api.At(ref) else None;
    if read.Some? {
      failure := api.Patch(ref, d.body, merge);
    } else {
      failure := api.Create(ref, d.body);
    }
    write := if failure.Some? then None else Some(Write(ref, read, overwritten, d.body));
  }

  function Prepend(writes: seq<Write>, r: Run): Run {
    r.(writes := writes + r.writes)
  }

  lemma PrependMore(writes: seq<Write>, w: Write, r: Run)
    ensures Prepend(writes, r.(writes := [w] + r.writes)) == Prepend(writes + [w], r)
  {
    assert writes + ([w] + r.writes) == (writes + [w]) + r.writes;
  }

  /** `replace_resource`, call by call. */
  method ReplaceResource(api: ApiServer, settings: Settings, kinds: Kinds, docs: seq<Doc>, visits: seq<Visit>)
    returns (outcome: Outcome)
    requires |visits| == |docs|
    modifies api
    ensures outcome == WriteManifest(Replace, settings, old(api.View()), kinds, docs, visits)
    ensures api.View() == ServerAfter(old(api.View()), outcome)
  {
    if settings.readOnly { return ReadOnly; }
    if docs == [] { return EmptyManifest; }
    for i := 0 to |docs|
      invariant FirstDenied(settings, docs) == FirstDenied(settings, docs[i..])
    {
      if !NsAllowed(settings, docs[i].namespace) { return Denied(docs[i].namespace); }
      assert docs[i..][1..] == docs[i + 1..];
    }
    var writes: seq<Write> := [];
    for i := 0 to |docs|
      invariant RunFrom(Replace, old(api.View()), kinds, docs, visits, 0)
             == Prepend(writes, RunFrom(Replace, api.View(), kinds, docs, visits, i))
    {
      hide ReplaceDoc;
      var failure, write := ReplaceOne(api, kinds, docs[i], visits[i]);
      if failure.Some? { return Ran(Run(api.View(), writes, Some((i, failure.value)))); }
      PrependMore(writes, write.value, RunFrom(Replace, api.View(), kinds, docs, visits, i + 1));
      writes := writes + [write.value];
    }
    return Ran(Run(api.View(), writes, None));
  }

  /** `_apply_yaml_records`, call by call: create what is missing, patch what exists. */
  method ApplyYamlRecords(api: ApiServer, settings: Settings, kinds: Kinds, docs: seq<Doc>, visits: seq<Visit>,
                          merge: (string, string) -> string)
    returns (outcome: Outcome)
    requires |visits| == |docs|
    modifies api
    ensures outcome == WriteManifest(Apply(merge), settings, old(api.View()), kinds, docs, visits)
    ensures api.View() == ServerAfter(old(api.View()), outcome)
  {
    if settings.readOnly { return ReadOnly; }
    if docs == [] { return EmptyManifest; }
    for i := 0 to |docs|
      invariant FirstDenied(settings, docs) == FirstDenied(settings, docs[i..])
    {
      if !NsAllowed(settings, docs[i].namespace) { return Denied(docs[i].namespace); }
      assert docs[i..][1..] == docs[i + 1..];
    }
    var writes: seq<Write> := [];
    for i := 0 to |docs|
      invariant RunFrom(Apply(merge), old(api.View()), kinds, docs, visits, 0)
             == Prepend(writes, RunFrom(Apply(merge), api.View(), kinds, docs, visits, i))
    {
      hide ApplyDoc;
      var failure, write := ApplyOne(api, kinds, docs[i], visits[i], merge);
      if failure.Some? { return Ran(Run(api.View(), writes, Some((i, failure.value)))); }
      PrependMore(writes, write.value, RunFrom(Apply(merge), api.View(), kinds, docs, visits, i + 1));
      writes := writes + [write.value];
    }
    return Ran(Run(api.View(), writes, None));
  }

  // ----- Optimistic concurrency ---------------------------------------------------------------------

  /** Others' writes leave an object alone or give it a version above every earlier one. */
  lemma {:induction false} InterferenceBumps(s: Server, writes: seq<External>)
    requires VersionsOk(s)
    ensures
      var s' := Interfere(s, writes);
      && VersionsOk(s') && s.revision <= s'.revision
      && forall ref <- s'.objects :: (ref in s.objects && s'.objects[ref] == s.objects[ref]) || s'.objects[ref].version > s.revision
  {
    if writes != [] { InterferenceBumps(s, writes[..|writes| - 1]); }
  }

  lemma StepKeepsVersions(tool: Tool, s: Server, kinds: Kinds, d: Doc, v: Visit)
    requires VersionsOk(s)
    ensures VersionsOk(StepDoc(tool, s, kinds, d, v).server)
  {
    InterferenceBumps(s, v.beforeGet);
    InterferenceBumps(Interfere(s, v.beforeGet), v.beforeWrite);
  }

  /** A successful replace overwrote exactly the object it had read. */
  lemma ReplaceOverwritesWhatItRead(s: Server, kinds: Kinds, d: Doc, v: Visit)
    requires VersionsOk(s) && ReplaceDoc(s, kinds, d, v).Wrote?
    ensures
      var w := ReplaceDoc(s, kinds, d, v).write;
      w.read.Some? && w.overwritten == w.read && w.sent == d.body && w.ref == RefOf(d)
  {
    InterferenceBumps(s, v.beforeGet);
    InterferenceBumps(Interfere(s, v.beforeGet), v.beforeWrite);
  }

  lemma {:induction false} ReplaceRunOverwritesWhatItRead(s: Server, kinds: Kinds, docs: seq<Doc>, visits: seq<Visit>, i: nat)
    requires |visits| == |docs| && i <= |docs| && VersionsOk(s)
    ensures forall w <- RunFrom(Replace, s, kinds, docs, visits, i).writes :: w.read.Some? && w.overwritten == w.read
    decreases |docs| - i
  {
    if i < |docs| {
      StepKeepsVersions(Replace, s, kinds, docs[i], visits[i]);
      match ReplaceDoc(s, kinds, docs[i], visits[i]) {
        case Failed(_, _) =>
        case Wrote(s', _) =>
          ReplaceOverwritesWhatItRead(s, kinds, docs[i], visits[i]);
          ReplaceRunOverwritesWhatItRead(s', kinds, docs, visits, i + 1);
      }
    }
  }

  /**
    Whatever other clients do between any two calls, `replace_resource` never overwrites an
    object it has not seen in exactly that state.
  */
  lemma NoSilentOverwrite(settings: Settings, s: Server, kinds: Kinds, docs: seq<Doc>, visits: seq<Visit>)
    requires |visits| == |docs| && VersionsOk(s)
    ensures forall w <- WritesOf(WriteManifest(Replace, settings, s, kinds, docs, visits)) :: w.read.Some? && w.overwritten == w.read
  {
    ReplaceRunOverwritesWhatItRead(s, kinds, docs, visits, 0);
  }

  /** `s'` differs from `s` in one object, which has this body and a version above all earlier ones. */
  ghost predicate OnlyWrites(s: Server, s': Server, ref: Ref, body: string) {
    && s'.objects.Keys == s.objects.Keys + {ref}
    && s'.objects[ref].body == body && s'.objects[ref].version > s.revision && s'.objects[ref].version == s'.revision
    && forall other <- s.objects | other != ref :: s'.objects[other] == s.objects[other]
  }

  /** The object a document names: its kind and name, and its namespace if it has one. */
  lemma RefOfIdentifies(d: Doc, e: Doc)
    ensures RefOf(d) == RefOf(e) <==>
              && d.kind == e.kind && d.name == e.name
              && (if d.namespace.Some? then d.namespace.value else "") == (if e.namespace.Some? then e.namespace.value else "")
  {
  }

  /** No write by others names `ref`. */
  predicate LeavesAlone(writes: seq<External>, ref: Ref) {
    forall k | 0 <= k < |writes| :: writes[k].ref != ref
  }

  /** A stored object is what it was, version included, exactly when no write by others named it. */
  lemma {:induction false} UnchangedIffLeftAlone(s: Server, writes: seq<External>, ref: Ref)
    requires VersionsOk(s) && ref in s.objects
    ensures
      var s' := Interfere(s, writes);
      ref in s'.objects && s'.objects[ref] == s.objects[ref] <==> LeavesAlone(writes, ref)
  {
    if writes != [] {
      var n := |writes| - 1;
      UnchangedIffLeftAlone(s, writes[..n], ref);
      InterferenceBumps(s, writes[..n]);
      assert LeavesAlone(writes, ref) <==> LeavesAlone(writes[..n], ref) && writes[n].ref != ref;
    }
  }

  /**
    A replace goes through exactly when its kind is known, the object is there, no call failed,
    and nobody wrote to the object since it was read; that is, exactly when it is unchanged.
  */
  lemma ReplaceSucceedsIff(s: Server, kinds: Kinds, d: Doc, v: Visit)
    requires VersionsOk(s)
    ensures
      var s1 := Interfere(s, v.beforeGet);
      var s2 := Interfere(s1, v.beforeWrite);
      ReplaceDoc(s, kinds, d, v).Wrote? <==>
        && (d.apiVersion, d.kind) in kinds && v.getFails.None? && v.writeFails.None?
        && RefOf(d) in s1.objects && LeavesAlone(v.beforeWrite, RefOf(d))
    ensures
      var s1 := Interfere(s, v.beforeGet);
      var s2 := Interfere(s1, v.beforeWrite);
      (d.apiVersion, d.kind) in kinds && v.getFails.None? && v.writeFails.None? && RefOf(d) in s1.objects ==>
        (ReplaceDoc(s, kinds, d, v).Wrote? <==> RefOf(d) in s2.objects && s2.objects[RefOf(d)] == s1.objects[RefOf(d)])
    ensures
      var s2 := Interfere(Interfere(s, v.beforeGet), v.beforeWrite);
      ReplaceDoc(s, kinds, d, v).Wrote? ==> OnlyWrites(s2, ReplaceDoc(s, kinds, d, v).server, RefOf(d), d.body)
  {
    var s1 := Interfere(s, v.beforeGet);
    InterferenceBumps(s, v.beforeGet);
    InterferenceBumps(s1, v.beforeWrite);
    if RefOf(d) in s1.objects { UnchangedIffLeftAlone(s1, v.beforeWrite, RefOf(d)); }
    hide Interfere, LeavesAlone;
  }

  /**
    An apply goes through exactly when its kind is known, no call failed for another reason
    than a missing object, and the object's presence did not change between the check and the
    write: it then patches what exists and creates what does not.
  */
  lemma ApplySucceedsIff(s: Server, kinds: Kinds, d: Doc, v: Visit, merge: (string, string) -> string)
    ensures
      var s1 := Interfere(s, v.beforeGet);
      var s2 := Interfere(s1, v.beforeWrite);
      var step := ApplyDoc(s, kinds, d, v, merge);
      var found := v.getFails.None? && RefOf(d) in s1.objects;
      && (step.Wrote? <==>
            && (d.apiVersion, d.kind) in kinds && (v.getFails.None? || v.getFails == Some(NotFound)) && v.writeFails.None?
            && (found <==> RefOf(d) in s2.objects))
      && (step.Wrote? ==>
            && RefOf(d) in step.server.objects
            && step.server.objects[RefOf(d)].version == s2.revision + 1
            && step.server.objects[RefOf(d)].body == if found then merge(s2.objects[RefOf(d)].body, d.body) else d.body)
      && (step.Failed? && (d.apiVersion, d.kind) in kinds && v.getFails.None? && v.writeFails.None? ==>
            step.failure == if found then NotFound else Conflict)
  {
  }

  /**
    A patch by `apply_yaml` lands on exactly the object its check read if and only if nobody
    wrote to that object in between.
  */
  lemma ApplyOverwritesWhatItReadIff(s: Server, kinds: Kinds, d: Doc, v: Visit, merge: (string, string) -> string)
    requires VersionsOk(s) && ApplyDoc(s, kinds, d, v, merge).Wrote?
    ensures
      var w := ApplyDoc(s, kinds, d, v, merge).write;
      && (w.read.Some? <==> w.overwritten.Some?)
      && (w.read.Some? ==> (w.overwritten == w.read <==> LeavesAlone(v.beforeWrite, RefOf(d))))
  {
    var s1 := Interfere(s, v.beforeGet);
    InterferenceBumps(s, v.beforeGet);
    if RefOf(d) in s1.objects { UnchangedIffLeftAlone(s1, v.beforeWrite, RefOf(d)); }
    hide Interfere, LeavesAlone;
  }

  /** So `apply_yaml` gives no such guarantee as replace: its patch may land on an object it never read. */
  lemma ApplyMayOverwriteUnseen(merge: (string, string) -> string)
    ensures
      var ref := Ref("ConfigMap", "ns", "cm");
      var s := Server(map[ref := Stored(1, "old")], 1);
      var d := Doc("v1", "ConfigMap", Some("ns"), "cm", "new");
      var v := Visit([], None, [Put(ref, "theirs")], None);
      var step := ApplyDoc(s, {("v1", "ConfigMap")}, d, v, merge);
      step.Wrote? && step.write.read == Some(Stored(1, "old")) && step.write.overwritten == Some(Stored(2, "theirs"))
  {
    var ref := Ref("ConfigMap", "ns", "cm");
    var s := Server(map[ref := Stored(1, "old")], 1);
    var others := [Put(ref, "theirs")];
    assert others[..0] == [];
    assert Interfere(s, others) == Written(s, ref, "theirs");
  }

  // ----- Gating and prefixes -----------------------------------------------------------------------------

  lemma {:induction false} FirstDeniedIff(settings: Settings, docs: seq<Doc>)
    ensures FirstDenied(settings, docs).None? <==> forall d <- docs :: NsAllowed(settings, d.namespace)
  {
    if docs != [] {
      FirstDeniedIff(settings, docs[1..]);
      assert forall d <- docs :: d == docs[0] || d in docs[1..];
    }
  }

  /**
    Either tool touches the cluster only if the server is writable and every document's
    namespace is allowed: one denied document and nothing at all is written.
  */
  lemma OneDeniedDocumentBlocksAll(tool: Tool, settings: Settings, s: Server, kinds: Kinds, docs: seq<Doc>, visits: seq<Visit>)
    requires |visits| == |docs|
    ensures
      var o := WriteManifest(tool, settings, s, kinds, docs, visits);
      && (o.Ran? <==> docs != [] && !settings.readOnly && forall d <- docs :: NsAllowed(settings, d.namespace))
      && (!o.Ran? ==> ServerAfter(s, o) == s && WritesOf(o) == [])
  {
    FirstDeniedIff(settings, docs);
  }

  /**
    The gate spelled out: the tools run exactly on a non-empty manifest on a writable server
    where, under an allowlist, every document names a listed namespace.
  */
  lemma GateIsTheAllowlist(tool: Tool, settings: Settings, s: Server, kinds: Kinds, docs: seq<Doc>, visits: seq<Visit>)
    requires |visits| == |docs|
    ensures WriteManifest(tool, settings, s, kinds, docs, visits).Ran? <==>
              && docs != [] && !settings.readOnly
              && (settings.allowlist.Some? ==>
                    forall d <- docs :: d.namespace.Some? && d.namespace.value in settings.allowlist.value)
  {
    OneDeniedDocumentBlocksAll(tool, settings, s, kinds, docs, visits);
    hide WriteManifest, FirstDenied;
  }

  /** Under an allowlist every logged write was for a document in a listed namespace. */
  lemma WritesStayInAllowlist(tool: Tool, settings: Settings, s: Server, kinds: Kinds, docs: seq<Doc>, visits: seq<Visit>, k: nat)
    requires |visits| == |docs| && settings.allowlist.Some?
    requires k < |WritesOf(WriteManifest(tool, settings, s, kinds, docs, visits))|
    ensures !settings.readOnly && k < |docs|
    ensures docs[k].namespace.Some? && docs[k].namespace.value in settings.allowlist.value
    ensures WritesOf(WriteManifest(tool, settings, s, kinds, docs, visits))[k].ref == Ref(docs[k].kind, docs[k].namespace.value, docs[k].name)
  {
    GateIsTheAllowlist(tool, settings, s, kinds, docs, visits);
    assert WriteManifest(tool, settings, s, kinds, docs, visits).Ran?;
    ExactlyThePrefixIsWritten(tool, settings, s, kinds, docs, visits);
    hide WriteManifest, Replay, OnlyInterference;
    assert docs[k] in docs;
  }

  /** A refusal names the first document that is not allowed. */
  lemma {:induction false} DeniedIsFirst(settings: Settings, docs: seq<Doc>, i: nat)
    requires i < |docs| && !NsAllowed(settings, docs[i].namespace)
    requires forall k | 0 <= k < i :: NsAllowed(settings, docs[k].namespace)
    ensures FirstDenied(settings, docs) == Some(docs[i])
  {
    if i > 0 { DeniedIsFirst(settings, docs[1..], i - 1); }
  }

  /** What one document does to the cluster besides others' writes: one object replaced, or nothing. */
  lemma StepEffect(tool: Tool, s: Server, kinds: Kinds, d: Doc, v: Visit)
    ensures
      var s1 := Interfere(s, v.beforeGet);
      var s2 := Interfere(s1, v.beforeWrite);
      match StepDoc(tool, s, kinds, d, v)
      case Failed(s', _) => s' in {s, s1, s2}
      case Wrote(s', w) =>
        && w.ref == RefOf(d) && w.sent == d.body
        && w.overwritten == (if w.ref in s2.objects then Some(s2.objects[w.ref]) else None)
        && s' == Written(s2, w.ref, if tool.Apply? && w.overwritten.Some? then tool.merge(w.overwritten.value.body, d.body) else d.body)
  {
  }

  ghost predicate WritesMatch(writes: seq<Write>, docs: seq<Doc>) {
    |writes| <= |docs| && forall k | 0 <= k < |writes| :: writes[k].ref == RefOf(docs[k]) && writes[k].sent == docs[k].body
  }

  lemma {:induction false} RunWritesPrefix(tool: Tool, s: Server, kinds: Kinds, docs: seq<Doc>, visits: seq<Visit>, i: nat)
    requires |visits| == |docs| && i <= |docs|
    ensures
      var r := RunFrom(tool, s, kinds, docs, visits, i);
      && i + |r.writes| == (if r.stoppedAt.Some? then r.stoppedAt.value.0 else |docs|)
      && WritesMatch(r.writes, docs[i..])
    decreases |docs| - i
  {
    if i < |docs| {
      var step := StepDoc(tool, s, kinds, docs[i], visits[i]);
      StepEffect(tool, s, kinds, docs[i], visits[i]);
      if step.Wrote? {
        RunWritesPrefix(tool, step.server, kinds, docs, visits, i + 1);
        PrefixGrows(step.write, RunFrom(tool, step.server, kinds, docs, visits, i + 1).writes, docs[i], docs[i + 1..]);
        assert docs[i..] == [docs[i]] + docs[i + 1..];
      }
    }
  }

  lemma PrefixGrows(w: Write, writes: seq<Write>, d: Doc, docs: seq<Doc>)
    requires w.ref == RefOf(d) && w.sent == d.body && WritesMatch(writes, docs)
    ensures WritesMatch([w] + writes, [d] + docs)
  {
    forall k | 0 <= k < |[w] + writes|
      ensures ([w] + writes)[k].ref == RefOf(([d] + docs)[k]) && ([w] + writes)[k].sent == ([d] + docs)[k].body
    {
      if k > 0 { assert writes[k - 1].ref == RefOf(docs[k - 1]); }
    }
  }

  /** The body the apiserver stores for one of our writes. */
  function StoredBody(tool: Tool, w: Write): string {
    if tool.Apply? && w.overwritten.Some? then tool.merge(w.overwritten.value.body, w.sent) else w.sent
  }

  /** The server after others' writes around each document and our logged writes, in order. */
  function Replay(tool: Tool, s: Server, visits: seq<Visit>, writes: seq<Write>): Server
    requires |writes| <= |visits|
    decreases |writes|
  {
    if writes == [] then s
    else
      var before := Interfere(Interfere(s, visits[0].beforeGet), visits[0].beforeWrite);
      Replay(tool, Written(before, writes[0].ref, StoredBody(tool, writes[0])), visits[1..], writes[1..])
  }

  /** `s'` is `s` with others' writes around at most one more document that failed. */
  predicate OnlyInterference(s: Server, s': Server, v: Visit) {
    s' in {s, Interfere(s, v.beforeGet), Interfere(Interfere(s, v.beforeGet), v.beforeWrite)}
  }

  /** The server of a run is the replay of its log, up to the interference around the failing document. */
  lemma {:induction false} RunIsReplay(tool: Tool, s: Server, kinds: Kinds, docs: seq<Doc>, visits: seq<Visit>, i: nat)
    requires |visits| == |docs| && i <= |docs|
    ensures
      var r := RunFrom(tool, s, kinds, docs, visits, i);
      && i + |r.writes| <= |docs|
      && var replayed := Replay(tool, s, visits[i..], r.writes);
         if r.stoppedAt.Some? then i + |r.writes| < |docs| && OnlyInterference(replayed, r.server, visits[i + |r.writes|])
         else r.server == replayed
    decreases |docs| - i
  {
    RunWritesPrefix(tool, s, kinds, docs, visits, i);
    if i < |docs| {
      var step := StepDoc(tool, s, kinds, docs[i], visits[i]);
      StepEffect(tool, s, kinds, docs[i], visits[i]);
      hide StepDoc, Interfere, StoredBody;
      assert visits[i..][0] == visits[i] && visits[i..][1..] == visits[i + 1..];
      if step.Wrote? {
        RunIsReplay(tool, step.server, kinds, docs, visits, i + 1);
        ReplayFirst(tool, s, visits[i..], step.write, RunFrom(tool, step.server, kinds, docs, visits, i + 1).writes);
      }
    }
  }

  lemma ReplayFirst(tool: Tool, s: Server, visits: seq<Visit>, w: Write, writes: seq<Write>)
    requires 1 + |writes| <= |visits|
    ensures
      var before := Interfere(Interfere(s, visits[0].beforeGet), visits[0].beforeWrite);
      Replay(tool, s, visits, [w] + writes) == Replay(tool, Written(before, w.ref, StoredBody(tool, w)), visits[1..], writes)
  {
    assert ([w] + writes)[1..] == writes;
  }

  /**
    If document i fails, exactly the documents before i have been written, in order; otherwise
    all of them. The cluster afterwards is the replay of those writes among others' writes.
  */
  lemma ExactlyThePrefixIsWritten(tool: Tool, settings: Settings, s: Server, kinds: Kinds, docs: seq<Doc>, visits: seq<Visit>)
    requires |visits| == |docs| && WriteManifest(tool, settings, s, kinds, docs, visits).Ran?
    ensures
      var r := WriteManifest(tool, settings, s, kinds, docs, visits).run;
      var n := if r.stoppedAt.Some? then r.stoppedAt.value.0 else |docs|;
      && |r.writes| == n <= |docs|
      && (forall k | 0 <= k < n :: r.writes[k].ref == RefOf(docs[k]) && r.writes[k].sent == docs[k].body)
      && var replayed := Replay(tool, s, visits, r.writes);
         if r.stoppedAt.Some? then n < |docs| && OnlyInterference(replayed, r.server, visits[n]) else r.server == replayed
  {
    RunWritesPrefix(tool, s, kinds, docs, visits, 0);
    RunIsReplay(tool, s, kinds, docs, visits, 0);
    assert docs[0..] == docs && visits[0..] == visits;
  }
}
