/**
  The wide scan behind Prometheus discovery (`tools/prometheus.py`,
  `_wide_scan_prometheus_matches`, cluster-wide mode): list the Services of every namespace,
  or of the allowed ones, and put the externally reachable matches first.
*/
module WideScan {
  import opened Foundations

  type Url = u: string | u != "" witness "http://prometheus:9090"

  /** `url` is None when no URL can be built for the Service. */
  datatype Service = Service(namespace: string, name: string, serviceType: string, url: Option<Url>)

  /** What one list call gives; NoSuchNamespace is a 404. */
  datatype Listing = Items(services: seq<Service>) | NoSuchNamespace | ListError

  /** `listings` has the answer per namespace, `clusterListing` that of the one cluster-wide call. */
  datatype Services = Services(allowlist: Option<seq<string>>, listings: map<string, Listing>, clusterListing: Listing)

  datatype Matches = Matched(services: seq<Service>) | ScanRaised

  const PROM_NAME_HINTS := ["prometheus", "kube-prometheus", "prom"]

  function LowerChar(c: char): char {
    if 'A' <= c <= 'Z' then c - 'A' + 'a' else c
  }

  function Lower(s: string): string {
    seq(|s|, i requires 0 <= i < |s| => LowerChar(s[i]))
  }

  predicate Contains(s: string, part: string)
  {
    part <= s || (s != "" && Contains(s[1..], part))
  }

  predicate Allowed(w: Services, namespace: string) {
    w.allowlist.None? || namespace in w.allowlist.value
  }

  predicate Hit(w: Services, s: Service) {
    Allowed(w, s.namespace) && exists k | 0 <= k < |PROM_NAME_HINTS| :: Contains(Lower(s.name), PROM_NAME_HINTS[k])
  }

  predicate External(s: Service) { s.serviceType == "NodePort" || s.serviceType == "LoadBalancer" }

  // ----- What is listed -----------------------------------------------------------------

  /** `dict.fromkeys`: the first occurrence of every name, in order. */
  function Deduplicated(names: seq<string>): (r: seq<string>)
    ensures forall n :: n in r <==> n in names
    ensures forall i, j | 0 <= i < j < |r| :: r[i] != r[j]
  {
    if names == [] then []
    else
      var n := |names| - 1;
      assert names == names[..n] + [names[n]];
      var front := Deduplicated(names[..n]);
      if names[n] in front then front else front + [names[n]]
  }

  function ListingOf(w: Services, namespace: string): Listing {
    if namespace in w.listings then w.listings[namespace] else NoSuchNamespace
  }

  /** The Services of these namespaces in order; None when a list call fails with anything but 404. */
  function ListedIn(w: Services, names: seq<string>): Option<seq<Service>>
  {
    if names == [] then Some([])
    else
      var n := |names| - 1;
      match ListedIn(w, names[..n])
      case None => None
      case Some(earlier) =>
        match ListingOf(w, names[n])
        case Items(services) => Some(earlier + services)
        case NoSuchNamespace => Some(earlier)
        case ListError => None
  }

  function Listed(w: Services): Option<seq<Service>> {
    if w.allowlist.Some? then ListedIn(w, Deduplicated(w.allowlist.value))
    else match w.clusterListing
      case Items(services) => Some(services)
      case NoSuchNamespace => Some([])
      case ListError => None
  }

  /** The scan raises exactly when one of the list calls it may make fails. */
  lemma {:induction false} ListedIffNoError(w: Services, names: seq<string>)
    ensures ListedIn(w, names).None? <==> exists n <- names :: ListingOf(w, n).ListError?
  {
    if names != [] {
      var n := |names| - 1;
      ListedIffNoError(w, names[..n]);
      assert names == names[..n] + [names[n]];
    }
  }

  // ----- What is matched ------------------------------------------------------------------

  /** The matches of one sort, in listing order. */
  function HitsOf(w: Services, services: seq<Service>, external: bool): seq<Service>
  {
    if services == [] then []
    else
      var n := |services| - 1;
      HitsOf(w, services[..n], external)
      + if Hit(w, services[n]) && External(services[n]) == external then [services[n]] else []
  }

  function WideMatches(w: Services): Matches {
    match Listed(w)
    case None => ScanRaised
    case Some(services) => Matched(HitsOf(w, services, true) + HitsOf(w, services, false))
  }

  method ListServices(w: Services) returns (r: Option<seq<Service>>)
    ensures r == Listed(w)
  {
    if w.allowlist.None? {
      match w.clusterListing {
        case Items(services) => return Some(services);
        case NoSuchNamespace => return Some([]);
        case ListError => return None;
      }
    }
    var all: seq<Service> := [];
    var names := Deduplicated(w.allowlist.value);
    for i := 0 to |names|
      invariant ListedIn(w, names[..i]) == Some(all)
    {
      assert names[..i + 1][..i] == names[..i];
      match ListingOf(w, names[i]) {
        case Items(services) => all := all + services;
        case NoSuchNamespace =>
        case ListError =>
          assert names[i] in names;
          ListedIffNoError(w, names);
          return None;
      }
    }
    assert names[..|names|] == names;
    return Some(all);
  }

  method WideScanMatches(w: Services) returns (r: Matches)
    ensures r == WideMatches(w)
  {
    var listed := ListServices(w);
    if listed.None? { return ScanRaised; }
    var all := listed.value;
    var nodeportFirst: seq<Service> := [];
    var clusteripAfter: seq<Service> := [];
    hide Hit, External;
    for i := 0 to |all|
      invariant nodeportFirst == HitsOf(w, all[..i], true)
      invariant clusteripAfter == HitsOf(w, all[..i], false)
    {
      assert all[..i + 1][..i] == all[..i];
      if !Hit(w, all[i]) { continue; }
      if External(all[i]) {
        nodeportFirst := nodeportFirst + [all[i]];
      } else {
        clusteripAfter := clusteripAfter + [all[i]];
      }
    }
    assert all[..|all|] == all;
    return Matched(nodeportFirst + clusteripAfter);
  }

  /** Position `i` holds the first match of its sort. */
  predicate FirstOfSort(w: Services, services: seq<Service>, i: nat, external: bool) {
    && i < |services| && Hit(w, services[i]) && External(services[i]) == external
    && forall k | 0 <= k < i && Hit(w, services[k]) :: External(services[k]) != external
  }

  lemma {:induction false} HitsStartWithFirst(w: Services, services: seq<Service>, i: nat, external: bool)
    requires FirstOfSort(w, services, i, external)
    ensures HitsOf(w, services, external) != [] && HitsOf(w, services, external)[0] == services[i]
  {
    hide Hit, External;
    var n := |services| - 1;
    if i < n {
      HitsStartWithFirst(w, services[..n], i, external);
    } else {
      NoHits(w, services[..n], external);
    }
  }

  lemma {:induction false} NoHits(w: Services, services: seq<Service>, external: bool)
    requires forall k | 0 <= k < |services| && Hit(w, services[k]) :: External(services[k]) != external
    ensures HitsOf(w, services, external) == []
  {
    hide Hit, External;
    if services != [] { NoHits(w, services[..|services| - 1], external); }
  }

  /** The Service the scan prefers: the first external match or, when there is none, the first match. */
  predicate Preferred(w: Services, services: seq<Service>, i: nat) {
    || FirstOfSort(w, services, i, true)
    || (FirstOfSort(w, services, i, false) && forall k | 0 <= k < |services| && Hit(w, services[k]) :: !External(services[k]))
  }

  /** The first match is the preferred Service; there is none exactly when nothing matches. */
  lemma FirstMatchIsPreferred(w: Services, services: seq<Service>, i: nat)
    requires Listed(w) == Some(services) && Preferred(w, services, i)
    ensures WideMatches(w).Matched? && WideMatches(w).services != [] && WideMatches(w).services[0] == services[i]
  {
    if FirstOfSort(w, services, i, true) {
      HitsStartWithFirst(w, services, i, true);
    } else {
      HitsStartWithFirst(w, services, i, false);
      NoHits(w, services, true);
    }
  }

  lemma {:induction false} FirstExists(w: Services, services: seq<Service>, external: bool) returns (i: nat)
    requires exists k | 0 <= k < |services| :: Hit(w, services[k]) && External(services[k]) == external
    ensures FirstOfSort(w, services, i, external)
  {
    hide Hit, External;
    var n := |services| - 1;
    if exists k | 0 <= k < n :: Hit(w, services[k]) && External(services[k]) == external {
      var k :| 0 <= k < n && Hit(w, services[k]) && External(services[k]) == external;
      assert services[..n][k] == services[k];
      i := FirstExists(w, services[..n], external);
      assert forall k | 0 <= k < i :: services[..n][k] == services[k];
    } else {
      i := n;
    }
  }

  lemma MatchesNothingIff(w: Services, services: seq<Service>)
    requires Listed(w) == Some(services)
    ensures WideMatches(w) == Matched([]) <==> forall k | 0 <= k < |services| :: !Hit(w, services[k])
    ensures (exists k | 0 <= k < |services| :: Hit(w, services[k])) ==> exists i :: Preferred(w, services, i)
  {
    hide Hit, External;
    if exists k | 0 <= k < |services| :: Hit(w, services[k]) && External(services[k]) {
      var i := FirstExists(w, services, true);
      assert Preferred(w, services, i);
      FirstMatchIsPreferred(w, services, i);
    } else if exists k | 0 <= k < |services| :: Hit(w, services[k]) && !External(services[k]) {
      var i := FirstExists(w, services, false);
      assert Preferred(w, services, i);
      FirstMatchIsPreferred(w, services, i);
    } else {
      NoHits(w, services, true);
      NoHits(w, services, false);
    }
  }

  // ----- The definitions, spelled out ----------------------------------------------------------------

  predicate OccursAt(s: string, part: string, i: int) {
    0 <= i <= |s| - |part| && s[i..i + |part|] == part
  }

  lemma OccursShifts(s: string, part: string, i: int)
    requires s != "" && i >= 0
    ensures OccursAt(s[1..], part, i) <==> OccursAt(s, part, i + 1)
  {
    if i + |part| <= |s| - 1 { assert s[1..][i..i + |part|] == s[i + 1..i + 1 + |part|]; }
  }

  lemma {:induction false} ContainsIff(s: string, part: string)
    ensures Contains(s, part) <==> exists i :: OccursAt(s, part, i)
  {
    assert OccursAt(s, part, 0) <==> part <= s;
    assert forall i | OccursAt(s, part, i) :: i >= 0;
    if s != "" {
      ContainsIff(s[1..], part);
      assert forall i | OccursAt(s[1..], part, i) :: i >= 0;
      hide OccursAt;
      if i :| OccursAt(s[1..], part, i) { OccursShifts(s, part, i); }
      if i :| OccursAt(s, part, i) {
        if i > 0 { OccursShifts(s, part, i - 1); }
      }
    }
  }

  /** A word that has a longer hint in it has the short one in front of that. */
  lemma HintWithin(s: string, long: string, at: nat)
    requires Contains(s, long) && at + 4 <= |long| && long[at..at + 4] == "prom"
    ensures Contains(s, "prom")
  {
    hide Contains;
    ContainsIff(s, long);
    ContainsIff(s, "prom");
    var i :| OccursAt(s, long, i);
    SliceOfSlice(s, i, |long|, at, 4);
    assert OccursAt(s, "prom", i + at);
  }

  lemma SliceOfSlice(s: string, i: nat, n: nat, at: nat, m: nat)
    requires i + n <= |s| && at + m <= n
    ensures s[i..i + n][at..at + m] == s[i + at..i + at + m]
  {
    assert s[i..][..n] == s[i..i + n];
    assert s[i..][at..at + m] == s[i..][..n][at..at + m];
    assert s[i..][at..] == s[i + at..];
  }

  /**
    Which Services match: those in an allowed namespace whose name has "prom" in it, in any case;
    the two longer hints add nothing.
  */
  lemma HitIff(w: Services, s: Service)
    ensures Hit(w, s) <==>
              && (w.allowlist.Some? ==> s.namespace in w.allowlist.value)
              && exists i :: OccursAt(Lower(s.name), "prom", i)
    ensures |Lower(s.name)| == |s.name|
    ensures forall k | 0 <= k < |s.name| ::
              Lower(s.name)[k] == if 'A' <= s.name[k] <= 'Z' then (s.name[k] as int + 32) as char else s.name[k]
  {
    var name := Lower(s.name);
    ContainsIff(name, "prom");
    assert PROM_NAME_HINTS[2] == "prom";
    assert |PROM_NAME_HINTS| == 3;
    if Contains(name, PROM_NAME_HINTS[0]) { HintWithin(name, "prometheus", 0); }
    if Contains(name, PROM_NAME_HINTS[1]) { HintWithin(name, "kube-prometheus", 5); }
    hide Contains;
  }

  /** Exactly the Services of the allowed namespaces' answers are listed; a namespace that is not there adds none. */
  lemma {:induction false} ListedServicesAre(w: Services, names: seq<string>, s: Service)
    requires ListedIn(w, names).Some?
    ensures s in ListedIn(w, names).value <==>
              exists n <- names :: n in w.listings && w.listings[n].Items? && s in w.listings[n].services
  {
    if names != [] {
      var n := |names| - 1;
      ListedServicesAre(w, names[..n], s);
      assert names == names[..n] + [names[n]];
    }
  }

  /** A name is kept where it occurs first. */
  lemma {:induction false} DeduplicatedKeepsFirst(names: seq<string>) returns (ps: seq<nat>)
    ensures |ps| == |Deduplicated(names)| && Increasing(ps)
    ensures forall i | 0 <= i < |ps| :: ps[i] < |names| && names[ps[i]] == Deduplicated(names)[i] && names[ps[i]] !in names[..ps[i]]
  {
    ps := [];
    if names != [] {
      var n := |names| - 1;
      ps := DeduplicatedKeepsFirst(names[..n]);
      assert forall i | 0 <= i < |ps| :: names[..n][..ps[i]] == names[..ps[i]];
      if names[n] !in Deduplicated(names[..n]) { ps := ps + [n]; }
    }
  }

  /** The answers of the namespaces follow one another in their order. */
  lemma {:induction false} ListedInOrder(w: Services, a: seq<string>, b: seq<string>)
    requires ListedIn(w, a).Some? && ListedIn(w, b).Some?
    ensures ListedIn(w, a + b) == Some(ListedIn(w, a).value + ListedIn(w, b).value)
  {
    if b == [] {
      assert a + b == a;
      assert ListedIn(w, a).value + [] == ListedIn(w, a).value;
    } else {
      var n := |b| - 1;
      assert (a + b)[..|a + b| - 1] == a + b[..n] && (a + b)[|a + b| - 1] == b[n];
      ListedInOrder(w, a, b[..n]);
      var first, more := ListedIn(w, a).value, ListedIn(w, b[..n]).value;
      match ListingOf(w, b[n]) {
        case Items(services) => assert (first + more) + services == first + (more + services);
        case _ =>
      }
    }
  }

  lemma ListedInOne(w: Services, name: string)
    ensures name !in w.listings || w.listings[name].NoSuchNamespace? ==> ListedIn(w, [name]) == Some([])
    ensures name in w.listings && w.listings[name].Items? ==> ListedIn(w, [name]) == Some(w.listings[name].services)
    ensures name in w.listings && w.listings[name].ListError? ==> ListedIn(w, [name]) == None
  {
    assert [name][..0] == [];
    if name in w.listings && w.listings[name].Items? { assert [] + w.listings[name].services == w.listings[name].services; }
  }

  /** The matches of one sort are exactly the matching Services of that sort, in listing order and once each. */
  lemma {:induction false} HitsAre(w: Services, services: seq<Service>, external: bool) returns (ps: seq<nat>)
    ensures Selects(services, (s: Service) => Hit(w, s) && External(s) == external, (s: Service) => s, HitsOf(w, services, external), ps)
  {
    ps := [];
    if services != [] {
      hide Hit, External;
      var n := |services| - 1;
      var p, f := (s: Service) => Hit(w, s) && External(s) == external, (s: Service) => s;
      ps := HitsAre(w, services[..n], external);
      assert services == services[..n] + [services[n]];
      SelectsOneMore(services[..n], services[n], p, f, HitsOf(w, services[..n], external), ps);
      hide Selects;
      if p(services[n]) { ps := ps + [n]; }
    }
  }
}
