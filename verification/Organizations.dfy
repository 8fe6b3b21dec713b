/** Membership in organisational units, and the service control policies that apply to an account or unit. */
module Organizations {

  /** A root, organisational unit or account. Only units are searched. */
  datatype Member = Member(id: string, isUnit: bool, children: seq<Member>)

  datatype Policy = Policy(name: string, targets: seq<string>)

  /** `_is_member_of_ou` from child `k` on, with what the path variable holds by then. */
  function Scan(identifier: string, ou: Member, k: nat, path: set<string>): (bool, set<string>)
    requires k <= |ou.children|
    decreases ou, |ou.children| - k
  {
    if k == |ou.children| then (false, path)
    else
      var child := ou.children[k];
      if child.id == identifier then (true, path + {ou.id})
      else if child.isUnit then
        var (found, inner) := Scan(identifier, child, 0, {});
        if found then (true, inner + {ou.id}) else Scan(identifier, ou, k + 1, inner)
      else Scan(identifier, ou, k + 1, path)
  }

  method IsMemberOfOu(identifier: string, ou: Member) returns (found: bool, ouPath: set<string>)
    ensures (found, ouPath) == Scan(identifier, ou, 0, {})
    decreases ou
  {
    found, ouPath := false, {};
    for k := 0 to |ou.children|
      invariant !found
      invariant Scan(identifier, ou, 0, {}) == Scan(identifier, ou, k, ouPath)
    {
      var child := ou.children[k];
      if child.id == identifier {
        found := true;
      } else if child.isUnit {
        found, ouPath := IsMemberOfOu(identifier, child);
      }
      if found {
        ouPath := ouPath + {ou.id};
        break;
      }
    }
  }

  /** The units found in the first organisation that knows the identifier. */
  function UnitsOf(identifier: string, orgs: seq<Member>): set<string> {
    if orgs == [] then {}
    else
      var (found, units) := Scan(identifier, orgs[0], 0, {});
      if found || |orgs| == 1 then units else UnitsOf(identifier, orgs[1..])
  }

  method GetOrganizationalUnitsForAccount(identifier: string, orgs: seq<Member>) returns (units: set<string>)
    ensures units == UnitsOf(identifier, orgs)
  {
    units := {};
    assert orgs[0..] == orgs;
    for i := 0 to |orgs|
      invariant if i < |orgs| then UnitsOf(identifier, orgs) == UnitsOf(identifier, orgs[i..])
        else units == UnitsOf(identifier, orgs)
    {
      assert orgs[i..][0] == orgs[i] && orgs[i..][1..] == orgs[i + 1..];
      var found;
      found, units := IsMemberOfOu(identifier, orgs[i]);
      if found { break; }
    }
  }

  predicate Targets(scp: Policy, identifier: string, units: set<string>) {
    exists t :: t in scp.targets && (t == identifier || t in units)
  }

  method ScpTargetsAccountOrOu(scp: Policy, identifier: string, units: set<string>) returns (r: bool)
    ensures r == Targets(scp, identifier, units)
  {
    for i := 0 to |scp.targets|
      invariant forall j :: 0 <= j < i ==> scp.targets[j] != identifier && scp.targets[j] !in units
    {
      if scp.targets[i] == identifier || scp.targets[i] in units {
        assert scp.targets[i] in scp.targets;
        return true;
      }
    }
    return false;
  }

  /** Every policy of every organisation that targets the identifier or one of the units, in order. */
  method GetScpsForAccountOrOu(identifier: string, orgs: seq<Member>, allScps: seq<seq<Policy>>)
      returns (scps: seq<Policy>)
    ensures scps == Selected(Flat(allScps), identifier, UnitsOf(identifier, orgs))
  {
    var units := GetOrganizationalUnitsForAccount(identifier, orgs);
    scps := [];
    assert allScps[..0] == [];
    for i := 0 to |allScps|
      invariant scps == Selected(Flat(allScps[..i]), identifier, units)
    {
      ghost var done := Flat(allScps[..i]);
      var org := allScps[i];
      assert done + org[..0] == done;
      for j := 0 to |org|
        invariant scps == Selected(done + org[..j], identifier, units)
      {
        assert done + org[..j + 1] == (done + org[..j]) + [org[j]];
        var targets := ScpTargetsAccountOrOu(org[j], identifier, units);
        if targets { scps := scps + [org[j]]; }
      }
      assert org[..|org|] == org;
      assert allScps[..i + 1][..i] == allScps[..i];
    }
    assert allScps[..|allScps|] == allScps;
  }

  function Flat(lists: seq<seq<Policy>>): seq<Policy> {
    if lists == [] then [] else Flat(lists[..|lists| - 1]) + lists[|lists| - 1]
  }

  function Selected(scps: seq<Policy>, identifier: string, units: set<string>): seq<Policy> {
    if scps == [] then []
    else
      Selected(scps[..|scps| - 1], identifier, units)
      + (if Targets(scps[|scps| - 1], identifier, units) then [scps[|scps| - 1]] else [])
  }

  // ---- Exactness ----

  /** The children to follow from `ou`, through units only, to reach the identifier. */
  predicate IsRoute(ou: Member, route: seq<nat>, identifier: string) {
    route != [] && route[0] < |ou.children| &&
    var child := ou.children[route[0]];
    if |route| == 1 then child.id == identifier else child.isUnit && IsRoute(child, route[1..], identifier)
  }

  /** The ids passed on the way, the identifier itself excluded. */
  function Passed(ou: Member, route: seq<nat>): set<string>
    requires route != [] && route[0] < |ou.children|
    decreases |route|
  {
    var child := ou.children[route[0]];
    {ou.id} + if |route| > 1 && route[1] < |child.children| then Passed(child, route[1..]) else {}
  }

  /** Of two routes, the one a search that tries children in order, and a child before what is under it, meets first. */
  predicate NoLater(a: seq<nat>, b: seq<nat>) {
    a == [] || (b != [] && (a[0] < b[0] || (a[0] == b[0] && NoLater(a[1..], b[1..]))))
  }

  /** From child `k` on, no route comes before this one. */
  ghost predicate IsFirst(ou: Member, k: nat, route: seq<nat>, identifier: string) {
    forall other: seq<nat> :: IsRoute(ou, other, identifier) && k <= other[0] ==> NoLater(route, other)
  }

  lemma {:induction false} ScanFindsRoute(identifier: string, ou: Member, k: nat) returns (route: seq<nat>)
    requires k <= |ou.children| && Scan(identifier, ou, k, {}).0
    ensures IsRoute(ou, route, identifier) && Scan(identifier, ou, k, {}).1 == Passed(ou, route)
    ensures k <= route[0] && IsFirst(ou, k, route, identifier)
    decreases ou, |ou.children| - k
  {
    var child := ou.children[k];
    if child.id == identifier {
      route := [k];
    } else if child.isUnit && Scan(identifier, child, 0, {}).0 {
      var inner := ScanFindsRoute(identifier, child, 0);
      route := [k] + inner;
      assert route[1..] == inner;
    } else {
      if child.isUnit { MissLeavesNothing(identifier, child, 0); }
      route := ScanFindsRoute(identifier, ou, k + 1);
      forall other: seq<nat> | IsRoute(ou, other, identifier) && k <= other[0] ensures NoLater(route, other) {
        if other[0] == k { RouteIsScanned(identifier, child, 0, other[1..]); }
      }
    }
  }

  lemma {:induction false} MissLeavesNothing(identifier: string, ou: Member, k: nat)
    requires k <= |ou.children|
    ensures !Scan(identifier, ou, k, {}).0 ==> Scan(identifier, ou, k, {}).1 == {}
    decreases ou, |ou.children| - k
  {
    if k >= |ou.children| {
    } else {
      if ou.children[k].isUnit { MissLeavesNothing(identifier, ou.children[k], 0); }
      MissLeavesNothing(identifier, ou, k + 1);
    }
  }

  lemma {:induction false} RouteIsScanned(identifier: string, ou: Member, k: nat, route: seq<nat>)
    requires k <= |ou.children| && IsRoute(ou, route, identifier) && k <= route[0]
    ensures Scan(identifier, ou, k, {}).0
    decreases ou, |ou.children| - k
  {
    var child := ou.children[k];
    if child.id != identifier {
      if child.isUnit {
        MissLeavesNothing(identifier, child, 0);
        if k == route[0] { RouteIsScanned(identifier, child, 0, route[1..]); }
      }
      if k < route[0] { RouteIsScanned(identifier, ou, k + 1, route); }
    }
  }

  ghost predicate Reachable(ou: Member, identifier: string) {
    exists route: seq<nat> :: IsRoute(ou, route, identifier)
  }

  ghost predicate OnlyRoute(ou: Member, route: seq<nat>, identifier: string) {
    IsRoute(ou, route, identifier) && forall other: seq<nat> :: IsRoute(ou, other, identifier) ==> other == route
  }

  /** The search finds an identifier exactly when it can be reached through units. */
  lemma SearchFindsTheReachable(identifier: string, ou: Member)
    ensures Scan(identifier, ou, 0, {}).0 <==> Reachable(ou, identifier)
    ensures !Scan(identifier, ou, 0, {}).0 ==> Scan(identifier, ou, 0, {}).1 == {}
  {
    MissLeavesNothing(identifier, ou, 0);
    if Scan(identifier, ou, 0, {}).0 {
      var found := ScanFindsRoute(identifier, ou, 0);
    } else if Reachable(ou, identifier) {
      var route: seq<nat> :| IsRoute(ou, route, identifier);
      RouteIsScanned(identifier, ou, 0, route);
    }
  }

  /** When it can be reached in one way only, the path found is exactly what lies on that way. */
  lemma SearchReturnsTheWay(identifier: string, ou: Member, route: seq<nat>)
    requires OnlyRoute(ou, route, identifier)
    ensures Scan(identifier, ou, 0, {}) == (true, Passed(ou, route))
  {
    RouteIsScanned(identifier, ou, 0, route);
    var found := ScanFindsRoute(identifier, ou, 0);
  }

  /** However often it occurs, the search stops at the first occurrence, and the units are what lies on the way. */
  lemma SearchReturnsFirst(identifier: string, ou: Member) returns (route: seq<nat>)
    requires Reachable(ou, identifier)
    ensures IsRoute(ou, route, identifier) && Scan(identifier, ou, 0, {}) == (true, Passed(ou, route))
    ensures forall other: seq<nat> :: IsRoute(ou, other, identifier) ==> NoLater(route, other)
  {
    SearchFindsTheReachable(identifier, ou);
    route := ScanFindsRoute(identifier, ou, 0);
  }

  /** And of several organisations that know it, the first decides. */
  lemma {:induction false} FirstOrganizationDecides(identifier: string, orgs: seq<Member>, o: nat)
    requires o < |orgs| && Reachable(orgs[o], identifier)
    requires forall p :: 0 <= p < o ==> !Reachable(orgs[p], identifier)
    ensures UnitsOf(identifier, orgs) == Scan(identifier, orgs[o], 0, {}).1
  {
    SearchFindsTheReachable(identifier, orgs[0]);
    if o > 0 { FirstOrganizationDecides(identifier, orgs[1..], o - 1); }
  }

  lemma {:induction false} NobodyKnows(identifier: string, orgs: seq<Member>)
    requires forall o :: 0 <= o < |orgs| ==> !Reachable(orgs[o], identifier)
    ensures UnitsOf(identifier, orgs) == {}
  {
    if orgs == [] {
    } else {
      SearchFindsTheReachable(identifier, orgs[0]);
      NobodyKnows(identifier, orgs[1..]);
    }
  }

  /** `unit` lies above the identifier in one of the organisations. */
  ghost predicate Above(unit: string, identifier: string, orgs: seq<Member>) {
    exists o, route :: 0 <= o < |orgs| && IsRoute(orgs[o], route, identifier) && unit in Passed(orgs[o], route)
  }

  /** The identifier occurs at most once in all the organisations. */
  ghost predicate OccursOnce(identifier: string, orgs: seq<Member>) {
    forall o, p, r, s ::
      0 <= o < |orgs| && 0 <= p < |orgs| && IsRoute(orgs[o], r, identifier) && IsRoute(orgs[p], s, identifier) ==>
      o == p && r == s
  }

  lemma {:induction false} UnitsAreThoseAbove(identifier: string, orgs: seq<Member>, unit: string)
    requires OccursOnce(identifier, orgs)
    ensures unit in UnitsOf(identifier, orgs) <==> Above(unit, identifier, orgs)
  {
    if orgs == [] {
    } else {
      var (found, units) := Scan(identifier, orgs[0], 0, {});
      var rest := orgs[1..];
      assert forall p :: 0 <= p < |rest| ==> rest[p] == orgs[p + 1];
      MissLeavesNothing(identifier, orgs[0], 0);
      if found {
        var route := ScanFindsRoute(identifier, orgs[0], 0);
        assert IsRoute(orgs[0], route, identifier);
      } else {
        forall route ensures !IsRoute(orgs[0], route, identifier) {
          if IsRoute(orgs[0], route, identifier) { RouteIsScanned(identifier, orgs[0], 0, route); }
        }
        assert OccursOnce(identifier, rest) by {
          forall o, p, r, s | 0 <= o < |rest| && 0 <= p < |rest| && IsRoute(rest[o], r, identifier)
            && IsRoute(rest[p], s, identifier)
            ensures o == p && r == s
          {
            assert IsRoute(orgs[o + 1], r, identifier) && IsRoute(orgs[p + 1], s, identifier);
          }
        }
        UnitsAreThoseAbove(identifier, rest, unit);
        assert Above(unit, identifier, orgs) <==> Above(unit, identifier, rest) by {
          if Above(unit, identifier, orgs) {
            var o, route :| 0 <= o < |orgs| && IsRoute(orgs[o], route, identifier) && unit in Passed(orgs[o], route);
            assert orgs[o] == rest[o - 1];
          }
          if Above(unit, identifier, rest) {
            var o, route :| 0 <= o < |rest| && IsRoute(rest[o], route, identifier) && unit in Passed(rest[o], route);
            assert rest[o] == orgs[o + 1];
          }
        }
      }
    }
  }

  lemma {:induction false} SelectedHolds(scps: seq<Policy>, identifier: string, units: set<string>, scp: Policy)
    ensures scp in Selected(scps, identifier, units) <==> scp in scps && Targets(scp, identifier, units)
  {
    if scps == [] {
    } else {
      var init, last := scps[..|scps| - 1], scps[|scps| - 1];
      assert scps == init + [last];
      SelectedHolds(init, identifier, units, scp);
    }
  }

  /** The policies selected are exactly those that target the identifier or something above it. */
  lemma SelectionIsExact(identifier: string, orgs: seq<Member>, scps: seq<Policy>, scp: Policy)
    requires OccursOnce(identifier, orgs)
    ensures scp in Selected(scps, identifier, UnitsOf(identifier, orgs)) <==>
              scp in scps && exists t :: t in scp.targets && (t == identifier || Above(t, identifier, orgs))
  {
    SelectedHolds(scps, identifier, UnitsOf(identifier, orgs), scp);
    forall t | t in scp.targets ensures t in UnitsOf(identifier, orgs) <==> Above(t, identifier, orgs) {
      UnitsAreThoseAbove(identifier, orgs, t);
    }
  }

  // ---- The order of what is selected ----

  /** A place among the policies of all organisations. */
  datatype Place = Place(org: nat, index: nat)

  predicate Before(a: Place, b: Place) {
    a.org < b.org || (a.org == b.org && a.index < b.index)
  }

  predicate IsPlace(lists: seq<seq<Policy>>, a: Place) {
    a.org < |lists| && a.index < |lists[a.org]|
  }

  /** Where the policies of a flattened list come from: every place once, list by list. */
  lemma {:induction false} FlatPlaces(lists: seq<seq<Policy>>) returns (places: seq<Place>)
    ensures |places| == |Flat(lists)|
    ensures forall x {:trigger places[x]} :: 0 <= x < |places| ==>
              IsPlace(lists, places[x]) && Flat(lists)[x] == lists[places[x].org][places[x].index]
    ensures forall x, y :: 0 <= x < y < |places| ==> Before(places[x], places[y])
    ensures forall a :: IsPlace(lists, a) ==> a in places
  {
    if lists == [] {
      places := [];
    } else {
      var n := |lists| - 1;
      var front := FlatPlaces(lists[..n]);
      var last := seq(|lists[n]|, s requires 0 <= s < |lists[n]| => Place(n, s));
      places := front + last;
      forall a | IsPlace(lists, a) ensures a in places {
        if a.org == n { assert last[a.index] == a; } else { assert IsPlace(lists[..n], a) && a in front; }
      }
    }
  }

  /** The places are those of the policies that target, in order, and `out` is what stands there. */
  ghost predicate PicksOut(places: seq<nat>, out: seq<Policy>, scps: seq<Policy>, targets: Policy -> bool) {
    && |places| == |out|
    && (forall x {:trigger places[x]} :: 0 <= x < |places| ==> places[x] < |scps| && out[x] == scps[places[x]])
    && (forall x, y :: 0 <= x < y < |places| ==> places[x] < places[y])
    && forall i: nat :: i in places <==> i < |scps| && targets(scps[i])
  }

  lemma PicksOutMore(front: seq<nat>, out: seq<Policy>, scps: seq<Policy>, scp: Policy, targets: Policy -> bool)
    requires PicksOut(front, out, scps, targets)
    ensures targets(scp) ==> PicksOut(front + [|scps|], out + [scp], scps + [scp], targets)
    ensures !targets(scp) ==> PicksOut(front, out, scps + [scp], targets)
  {
  }

  lemma {:induction false} SelectedPlaces(scps: seq<Policy>, identifier: string, units: set<string>)
      returns (places: seq<nat>)
    ensures PicksOut(places, Selected(scps, identifier, units), scps, scp => Targets(scp, identifier, units))
  {
    if scps == [] {
      places := [];
    } else {
      var n := |scps| - 1;
      var front := SelectedPlaces(scps[..n], identifier, units);
      PicksOutMore(front, Selected(scps[..n], identifier, units), scps[..n], scps[n],
        scp => Targets(scp, identifier, units));
      hide PicksOut;
      assert scps == scps[..n] + [scps[n]];
      var out := Selected(scps[..n], identifier, units);
      places := if Targets(scps[n], identifier, units) then front + [n] else front;
      assert out + [] == out;
    }
  }

  /** The policy targets the identifier or something above it. */
  ghost predicate AimsAt(scp: Policy, identifier: string, orgs: seq<Member>) {
    exists t :: t in scp.targets && (t == identifier || Above(t, identifier, orgs))
  }

  /** What is selected is every place of the organisations' policies that holds one aimed at the identifier, once each,
      organisation by organisation and in the order of each. */
  lemma SelectionIsInOrder(identifier: string, orgs: seq<Member>, allScps: seq<seq<Policy>>)
      returns (places: seq<Place>)
    requires OccursOnce(identifier, orgs)
    ensures var out := Selected(Flat(allScps), identifier, UnitsOf(identifier, orgs));
      && |places| == |out|
      && (forall x {:trigger places[x]} :: 0 <= x < |places| ==>
           IsPlace(allScps, places[x]) && out[x] == allScps[places[x].org][places[x].index])
    ensures forall x, y :: 0 <= x < y < |places| ==> Before(places[x], places[y])
    ensures forall a :: a in places <==> IsPlace(allScps, a) && AimsAt(allScps[a.org][a.index], identifier, orgs)
  {
    var flat, units := Flat(allScps), UnitsOf(identifier, orgs);
    forall scp ensures Targets(scp, identifier, units) <==> AimsAt(scp, identifier, orgs) {
      forall t ensures t in units <==> Above(t, identifier, orgs) { UnitsAreThoseAbove(identifier, orgs, t); }
    }
    var from := FlatPlaces(allScps);
    var chosen := SelectedPlaces(flat, identifier, units);
    hide Flat, Selected, UnitsOf, Targets, AimsAt;
    places := seq(|chosen|, x requires 0 <= x < |chosen| => from[chosen[x]]);
    forall a | a in places ensures IsPlace(allScps, a) && AimsAt(allScps[a.org][a.index], identifier, orgs) {
      var x :| 0 <= x < |places| && places[x] == a;
      assert chosen[x] in chosen;
    }
    forall a | IsPlace(allScps, a) && AimsAt(allScps[a.org][a.index], identifier, orgs) ensures a in places {
      assert a in from;
      var i :| 0 <= i < |from| && from[i] == a;
      assert i in chosen;
      var x :| 0 <= x < |chosen| && chosen[x] == i;
      assert places[x] == a;
    }
  }
}
