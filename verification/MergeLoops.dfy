/** The control structure of the minimiser: a pairwise merging loop over a list, with an exclusion list. What
    it means to clean an item and to join two items is left to `Rules`. */
module MergeLoops {
  import opened Outcomes
  import opened Statements

  datatype Attempt<T> = Apart | Joined(item: T, on: Field) | Failed(error: Error)

  datatype Rules<!T> = Rules(clean: T -> T, join: (T, T) -> Attempt<T>)

  /** By which item, and on which element, an item was absorbed. */
  datatype Absorption = Absorption(into: nat, on: Field)

  /** The list being merged, `exclude_ids`, and (for the record only) what became of the absorbed items. */
  datatype Merging<T> = Merging(items: seq<T>, excluded: seq<nat>, owner: map<nat, Absorption>)

  function Cleaned<T>(m: Merging<T>, k: nat, rules: Rules<T>): Merging<T>
    requires k < |m.items|
  {
    m.(items := m.items[k := rules.clean(m.items[k])])
  }

  function Absorbed<T>(m: Merging<T>, i: nat, j: nat, item: T, on: Field): Merging<T>
    requires i < |m.items|
  {
    Merging(m.items[i := item], m.excluded + [j], m.owner[j := Absorption(i, on)])
  }

  /** One turn of the inner loop: item `i` meets item `j`. */
  function Meet<T>(m: Merging<T>, i: nat, j: nat, rules: Rules<T>): (r: Result<Merging<T>>)
    requires i < j < |m.items|
    ensures r.Ok? ==> |r.value.items| == |m.items|
  {
    if j in m.excluded then Ok(m)
    else
      var c := Cleaned(m, j, rules);
      match rules.join(c.items[i], c.items[j])
      case Apart => Ok(c)
      case Joined(item, on) => Ok(Absorbed(c, i, j, item, on))
      case Failed(error) => Err(error)
  }

  /** The inner loop from `j` on. */
  function Absorb<T>(m: Merging<T>, i: nat, j: nat, rules: Rules<T>): (r: Result<Merging<T>>)
    requires i < j && i < |m.items|
    ensures r.Ok? ==> |r.value.items| == |m.items|
    decreases |m.items| - j
  {
    if j >= |m.items| then Ok(m)
    else
      var next :- Meet(m, i, j, rules);
      Absorb(next, i, j + 1, rules)
  }

  /** One turn of the outer loop. */
  function Turn<T>(m: Merging<T>, i: nat, rules: Rules<T>): (r: Result<Merging<T>>)
    requires i < |m.items|
    ensures r.Ok? ==> |r.value.items| == |m.items|
  {
    var c := Cleaned(m, i, rules);
    if i in c.excluded then Ok(c) else Absorb(c, i, i + 1, rules)
  }

  /** The outer loop from `i` on. */
  function AbsorbAll<T>(m: Merging<T>, i: nat, rules: Rules<T>): (r: Result<Merging<T>>)
    ensures r.Ok? ==> |r.value.items| == |m.items|
    decreases |m.items| - i
  {
    if i >= |m.items| then Ok(m)
    else
      var next :- Turn(m, i, rules);
      AbsorbAll(next, i + 1, rules)
  }

  function Start<T>(items: seq<T>): Merging<T> {
    Merging(items, [], map[])
  }

  /** The items never absorbed, in order. */
  function KeptFrom<T>(m: Merging<T>, k: nat): seq<T>
    decreases |m.items| - k
  {
    if k >= |m.items| then []
    else (if k in m.excluded then [] else [m.items[k]]) + KeptFrom(m, k + 1)
  }

  // ---- The invariant of the loops ----

  /** What a run is judged by. `fits(x, o)`: item `x` may have grown from the original `o`. `hit(x)`: the item
      has the trait in question. `kin(o, p, e)`: what grew from `o` may absorb `p` on element `e`. `full(e)`: a join
      on `e` loses the trait of neither side. `fails(o, p, error)`: joining what grew from them may raise. */
  datatype Judge<!T> = Judge(
    fits: (T, T) -> bool, hit: T -> bool, kin: (T, T, Field) -> bool,
    full: Field -> bool, fails: (T, T, Error) -> bool)

  /** Cleaning changes nothing that matters. */
  ghost predicate CleanIsHarmless<T(!new)>(rules: Rules<T>, judge: Judge<T>) {
    forall x, o :: judge.fits(x, o) ==>
      judge.fits(rules.clean(x), o) && judge.hit(rules.clean(x)) == judge.hit(x)
  }

  /** Joining two fitting items joins kin only, gives no trait that neither had, and loses none on a full element. */
  ghost predicate JoinIsSound<T(!new)>(rules: Rules<T>, judge: Judge<T>) {
    forall a, b, oa, ob :: judge.fits(a, oa) && judge.fits(b, ob) ==>
      SoundAttempt(rules.join(a, b), a, b, oa, ob, judge)
  }

  ghost predicate SoundAttempt<T>(attempt: Attempt<T>, a: T, b: T, oa: T, ob: T, judge: Judge<T>) {
    match attempt
    case Apart => true
    case Failed(error) => judge.fails(oa, ob, error)
    case Joined(item, on) =>
      && judge.fits(item, oa) && judge.kin(oa, ob, on)
      && (judge.hit(item) ==> judge.hit(a) || judge.hit(b))
      && (judge.full(on) && (judge.hit(a) || judge.hit(b)) ==> judge.hit(item))
  }

  /** Original `l` is item `k` or was absorbed by it. */
  predicate InGroup<T>(m: Merging<T>, l: nat, k: nat) {
    l == k || (l in m.owner && m.owner[l].into == k)
  }

  /** A one-level forest: every absorbed item has one owner, earlier in the list, itself never absorbed. */
  ghost predicate Forest<T>(m: Merging<T>) {
    && (forall j :: j in m.excluded <==> j in m.owner)
    && (forall x, y :: 0 <= x < y < |m.excluded| ==> m.excluded[x] != m.excluded[y])
    && (forall j :: j in m.owner ==> m.owner[j].into < j < |m.items| && m.owner[j].into !in m.owner)
  }

  ghost predicate AllFit<T>(m: Merging<T>, orig: seq<T>, judge: Judge<T>) {
    |m.items| == |orig| &&
    forall k {:trigger m.items[k]} :: 0 <= k < |orig| ==> judge.fits(m.items[k], orig[k])
  }

  ghost predicate AllKin<T>(m: Merging<T>, orig: seq<T>, judge: Judge<T>) {
    forall j {:trigger m.owner[j]} :: j in m.owner ==>
      j < |orig| && m.owner[j].into < |orig| && judge.kin(orig[m.owner[j].into], orig[j], m.owner[j].on)
  }

  /** Whatever item `k` absorbed, it absorbed on full elements. */
  ghost predicate GroupIsFull<T>(m: Merging<T>, k: nat, judge: Judge<T>) {
    forall j {:trigger m.owner[j]} :: j in m.owner && m.owner[j].into == k ==> judge.full(m.owner[j].on)
  }

  /** Some original of the group of `k` has the trait. */
  ghost predicate GroupHits<T>(m: Merging<T>, k: nat, orig: seq<T>, judge: Judge<T>) {
    exists l :: 0 <= l < |orig| && InGroup(m, l, k) && judge.hit(orig[l])
  }

  /** Item `k` has the trait only if its group had it, and if its group had it and was joined on full elements. */
  ghost predicate Faithful<T>(m: Merging<T>, k: nat, orig: seq<T>, judge: Judge<T>)
    requires k < |m.items|
  {
    && (judge.hit(m.items[k]) ==> GroupHits(m, k, orig, judge))
    && (GroupIsFull(m, k, judge) && GroupHits(m, k, orig, judge) ==> judge.hit(m.items[k]))
  }

  ghost predicate KeptAreFaithful<T>(m: Merging<T>, orig: seq<T>, judge: Judge<T>) {
    forall k :: 0 <= k < |m.items| && k !in m.owner ==> Faithful(m, k, orig, judge)
  }

  /** The invariant, relative to the list the loops started from. */
  ghost predicate Sound<T>(m: Merging<T>, orig: seq<T>, judge: Judge<T>) {
    Forest(m) && AllFit(m, orig, judge) && AllKin(m, orig, judge) && KeptAreFaithful(m, orig, judge)
  }

  ghost predicate OwnersUpTo<T>(m: Merging<T>, i: nat) {
    forall j :: j in m.owner ==> m.owner[j].into <= i
  }

  /** A failure is that of two originals which may fail. */
  ghost predicate SomePairFails<T>(orig: seq<T>, judge: Judge<T>, error: Error) {
    exists x, y :: 0 <= x < y < |orig| && judge.fails(orig[x], orig[y], error)
  }

  lemma CleanedStaysSound<T(!new)>(m: Merging<T>, k: nat, orig: seq<T>, rules: Rules<T>, judge: Judge<T>)
    requires CleanIsHarmless(rules, judge)
    requires Sound(m, orig, judge) && k < |orig|
    ensures Sound(Cleaned(m, k, rules), orig, judge)
  {
    var c := Cleaned(m, k, rules);
    assert judge.fits(m.items[k], orig[k]);
    assert AllFit(c, orig, judge);
    assert forall x, l :: InGroup(c, l, x) <==> InGroup(m, l, x);
    forall x | 0 <= x < |c.items| && x !in c.owner ensures Faithful(c, x, orig, judge) {
      assert Faithful(m, x, orig, judge);
      assert GroupHits(c, x, orig, judge) <==> GroupHits(m, x, orig, judge);
      assert GroupIsFull(c, x, judge) <==> GroupIsFull(m, x, judge);
    }
  }

  /** Only the group of `i` changes: it takes in that of `j`, which is `j` alone. */
  lemma GroupsAfterAbsorbing<T>(m: Merging<T>, i: nat, j: nat, item: T, on: Field, k: nat, orig: seq<T>,
      judge: Judge<T>)
    requires Forest(m) && OwnersUpTo(m, i) && i < j < |orig| == |m.items| && i !in m.owner && j !in m.owner && k != j
    ensures var n := Absorbed(m, i, j, item, on);
      && (GroupHits(n, k, orig, judge) <==> GroupHits(m, k, orig, judge) || (k == i && judge.hit(orig[j])))
      && (GroupIsFull(n, k, judge) <==> GroupIsFull(m, k, judge) && (k == i ==> judge.full(on)))
    ensures GroupHits(m, j, orig, judge) <==> judge.hit(orig[j])
    ensures GroupIsFull(m, j, judge)
  {
    var n := Absorbed(m, i, j, item, on);
    assert forall l :: InGroup(n, l, k) <==> InGroup(m, l, k) || (k == i && l == j);
    assert InGroup(m, j, j) && forall l :: InGroup(m, l, j) ==> l == j;
    assert n.owner[j] == Absorption(i, on);
    assert forall l :: l in m.owner ==> n.owner[l] == m.owner[l];
  }

  lemma AbsorbedIsForest<T>(m: Merging<T>, i: nat, j: nat, item: T, on: Field)
    requires Forest(m) && OwnersUpTo(m, i) && i < j < |m.items| && i !in m.owner && j !in m.owner
    ensures Forest(Absorbed(m, i, j, item, on)) && OwnersUpTo(Absorbed(m, i, j, item, on), i)
  {
  }

  /** Every item not absorbed is still faithful. */
  lemma AbsorbedIsFaithful<T>(m: Merging<T>, i: nat, j: nat, item: T, on: Field, k: nat, orig: seq<T>, judge: Judge<T>)
    requires Sound(m, orig, judge) && OwnersUpTo(m, i)
    requires i < j < |orig| && k < |orig| && i !in m.owner && j !in m.owner
    requires SoundAttempt(Joined(item, on), m.items[i], m.items[j], orig[i], orig[j], judge)
    requires k !in Absorbed(m, i, j, item, on).owner
    ensures Faithful(Absorbed(m, i, j, item, on), k, orig, judge)
  {
    GroupsAfterAbsorbing(m, i, j, item, on, k, orig, judge);
    assert Faithful(m, k, orig, judge) && Faithful(m, i, orig, judge) && Faithful(m, j, orig, judge);
    hide GroupHits, GroupIsFull, Forest, AllKin, AllFit, KeptAreFaithful, OwnersUpTo;
  }

  lemma AbsorbedStaysSound<T>(m: Merging<T>, i: nat, j: nat, item: T, on: Field, orig: seq<T>, judge: Judge<T>)
    requires Sound(m, orig, judge) && OwnersUpTo(m, i)
    requires i < j < |orig| && i !in m.owner && j !in m.owner
    requires SoundAttempt(Joined(item, on), m.items[i], m.items[j], orig[i], orig[j], judge)
    ensures Sound(Absorbed(m, i, j, item, on), orig, judge)
  {
    var n := Absorbed(m, i, j, item, on);
    AbsorbedIsForest(m, i, j, item, on);
    hide Forest;
    forall k | 0 <= k < |n.items| && k !in n.owner ensures Faithful(n, k, orig, judge) {
      AbsorbedIsFaithful(m, i, j, item, on, k, orig, judge);
    }
    hide Faithful;
  }

  lemma MeetStaysSound<T(!new)>(m: Merging<T>, i: nat, j: nat, orig: seq<T>, rules: Rules<T>, judge: Judge<T>)
    requires CleanIsHarmless(rules, judge) && JoinIsSound(rules, judge)
    requires Sound(m, orig, judge) && OwnersUpTo(m, i) && i < j < |orig| && i !in m.owner
    ensures match Meet(m, i, j, rules)
            case Ok(n) => Sound(n, orig, judge) && OwnersUpTo(n, i) && i !in n.owner
            case Err(error) => SomePairFails(orig, judge, error)
  {
    if j !in m.excluded {
      CleanedStaysSound(m, j, orig, rules, judge);
      var c := Cleaned(m, j, rules);
      assert judge.fits(c.items[i], orig[i]) && judge.fits(c.items[j], orig[j]);
      var attempt := rules.join(c.items[i], c.items[j]);
      assert SoundAttempt(attempt, c.items[i], c.items[j], orig[i], orig[j], judge);
      if attempt.Joined? {
        AbsorbedIsForest(c, i, j, attempt.item, attempt.on);
        AbsorbedStaysSound(c, i, j, attempt.item, attempt.on, orig, judge);
      }
    }
  }

  lemma {:induction false} AbsorbStaysSound<T(!new)>(m: Merging<T>, i: nat, j: nat, orig: seq<T>, rules: Rules<T>,
      judge: Judge<T>)
    requires CleanIsHarmless(rules, judge) && JoinIsSound(rules, judge)
    requires Sound(m, orig, judge) && OwnersUpTo(m, i) && i < j && i < |orig| && i !in m.owner
    ensures match Absorb(m, i, j, rules)
            case Ok(n) => Sound(n, orig, judge) && OwnersUpTo(n, i)
            case Err(error) => SomePairFails(orig, judge, error)
    decreases |orig| - j
  {
    hide Forest, AllKin, KeptAreFaithful, CleanIsHarmless, JoinIsSound, OwnersUpTo;
    if j >= |orig| {
    } else {
      MeetStaysSound(m, i, j, orig, rules, judge);
      var next := Meet(m, i, j, rules);
      if next.Ok? { AbsorbStaysSound(next.value, i, j + 1, orig, rules, judge); }
    }
  }

  lemma TurnStaysSound<T(!new)>(m: Merging<T>, i: nat, orig: seq<T>, rules: Rules<T>, judge: Judge<T>)
    requires CleanIsHarmless(rules, judge) && JoinIsSound(rules, judge)
    requires Sound(m, orig, judge) && OwnersUpTo(m, i) && i < |orig|
    ensures match Turn(m, i, rules)
            case Ok(n) => Sound(n, orig, judge) && OwnersUpTo(n, i)
            case Err(error) => SomePairFails(orig, judge, error)
  {
    CleanedStaysSound(m, i, orig, rules, judge);
    var c := Cleaned(m, i, rules);
    if i !in c.excluded { AbsorbStaysSound(c, i, i + 1, orig, rules, judge); }
  }

  lemma {:induction false} AbsorbAllStaysSound<T(!new)>(m: Merging<T>, i: nat, orig: seq<T>, rules: Rules<T>,
      judge: Judge<T>)
    requires CleanIsHarmless(rules, judge) && JoinIsSound(rules, judge)
    requires Sound(m, orig, judge) && OwnersUpTo(m, i)
    ensures match AbsorbAll(m, i, rules)
            case Ok(n) => Sound(n, orig, judge)
            case Err(error) => SomePairFails(orig, judge, error)
    decreases |orig| - i
  {
    hide Forest, AllKin, KeptAreFaithful, CleanIsHarmless, JoinIsSound;
    if i >= |orig| {
    } else {
      TurnStaysSound(m, i, orig, rules, judge);
      var next := Turn(m, i, rules);
      if next.Ok? { AbsorbAllStaysSound(next.value, i + 1, orig, rules, judge); }
    }
  }

  lemma StartIsSound<T>(orig: seq<T>, judge: Judge<T>)
    requires forall k :: 0 <= k < |orig| ==> judge.fits(orig[k], orig[k])
    ensures Sound(Start(orig), orig, judge)
  {
    var m := Start(orig);
    forall k | 0 <= k < |orig| ensures Faithful(m, k, orig, judge) {
      assert InGroup(m, k, k) && forall l :: InGroup(m, l, k) ==> l == k;
    }
  }

  /** Started on fitting items, the loops fail only for two items that may fail, and otherwise end sound. */
  lemma LoopsAreSound<T(!new)>(orig: seq<T>, rules: Rules<T>, judge: Judge<T>)
    requires CleanIsHarmless(rules, judge) && JoinIsSound(rules, judge)
    requires forall k :: 0 <= k < |orig| ==> judge.fits(orig[k], orig[k])
    ensures match AbsorbAll(Start(orig), 0, rules)
            case Ok(m) => Sound(m, orig, judge)
            case Err(error) => SomePairFails(orig, judge, error)
  {
    StartIsSound(orig, judge);
    AbsorbAllStaysSound(Start(orig), 0, orig, rules, judge);
  }

  // ---- What every item ends with ----

  /** Cleaning gives the property, and joining keeps it. */
  ghost predicate CleaningGives<T(!new)>(rules: Rules<T>, p: T -> bool) {
    && (forall x :: p(rules.clean(x)))
    && forall a, b :: p(a) && p(b) && rules.join(a, b).Joined? ==> p(rules.join(a, b).item)
  }

  ghost predicate AllHave<T>(items: seq<T>, n: nat, p: T -> bool) {
    n <= |items| && forall k :: 0 <= k < n ==> p(items[k])
  }

  lemma {:induction false} AbsorbKeepsAll<T(!new)>(m: Merging<T>, i: nat, j: nat, rules: Rules<T>, p: T -> bool)
    requires CleaningGives(rules, p) && i < j && i < |m.items| && AllHave(m.items, i + 1, p)
    requires Absorb(m, i, j, rules).Ok?
    ensures AllHave(Absorb(m, i, j, rules).value.items, i + 1, p)
    decreases |m.items| - j
  {
    if j >= |m.items| {
    } else {
      AbsorbKeepsAll(Meet(m, i, j, rules).value, i, j + 1, rules, p);
    }
  }

  /** The loops leave every item, kept or absorbed, with what cleaning gives. */
  lemma {:induction false} LoopsCleanAll<T(!new)>(m: Merging<T>, i: nat, rules: Rules<T>, p: T -> bool)
    requires CleaningGives(rules, p) && AllHave(m.items, i, p) && AbsorbAll(m, i, rules).Ok?
    ensures var n := AbsorbAll(m, i, rules).value; AllHave(n.items, |m.items|, p)
    decreases |m.items| - i
  {
    if i >= |m.items| {
    } else {
      var c := Cleaned(m, i, rules);
      if i !in c.excluded { AbsorbKeepsAll(c, i, i + 1, rules, p); }
      LoopsCleanAll(Turn(m, i, rules).value, i + 1, rules, p);
    }
  }

  /** Counting: the result is the input less the absorbed. */
  lemma {:induction false} KeptCount<T>(m: Merging<T>, k: nat)
    requires k <= |m.items|
    ensures |KeptFrom(m, k)| == |m.items| - k - |(set j | k <= j < |m.items| && j in m.excluded)|
    decreases |m.items| - k
  {
    var from := set j | k <= j < |m.items| && j in m.excluded;
    if k < |m.items| {
      KeptCount(m, k + 1);
      var rest := set j | k + 1 <= j < |m.items| && j in m.excluded;
      assert from == if k in m.excluded then rest + {k} else rest;
      assert k !in rest && |rest + {k}| == |rest| + 1;
    } else {
      assert from == {};
    }
  }

  /** The places of the items never absorbed, in order. */
  lemma {:induction false} KeptPlaces<T>(m: Merging<T>, k: nat) returns (places: seq<nat>)
    ensures |places| == |KeptFrom(m, k)|
    ensures forall x {:trigger places[x]} :: 0 <= x < |places| ==>
              k <= places[x] < |m.items| && places[x] !in m.excluded && KeptFrom(m, k)[x] == m.items[places[x]]
    ensures forall x, y :: 0 <= x < y < |places| ==> places[x] < places[y]
    ensures forall i :: k <= i < |m.items| && i !in m.excluded ==> i in places
    decreases |m.items| - k
  {
    if k >= |m.items| {
      places := [];
    } else {
      var rest := KeptPlaces(m, k + 1);
      places := if k in m.excluded then rest else [k] + rest;
      forall i | k <= i < |m.items| && i !in m.excluded ensures i in places {
        if i == k { assert places[0] == k; } else { assert i in rest; }
      }
    }
  }

  lemma {:induction false} KeptMembers<T>(m: Merging<T>, k: nat, x: T)
    ensures x in KeptFrom(m, k) <==> exists i :: k <= i < |m.items| && i !in m.excluded && m.items[i] == x
    decreases |m.items| - k
  {
    if k >= |m.items| {
    } else {
      KeptMembers(m, k + 1, x);
    }
  }
}
