/** What merging, reading and building configurations guarantee, path by path. */
module ConfigurationLaws {
  import opened Configuration
  import opened Outcomes

  /** Something that is not a dictionary sits on a proper prefix of the path. */
  predicate Blocked(t: Tree, path: seq<string>) {
    exists n :: 0 <= n < |path| && IsLeaf(Lookup(t, path[..n]))
  }

  predicate IsLeaf(x: Option<Tree>) { x.Some? && x.value.Leaf? }
  predicate IsNode(x: Option<Tree>) { x.Some? && x.value.Node? }

  lemma BlockedStep(t: Tree, path: seq<string>)
    requires path != []
    ensures Blocked(t, path) <==> t.Leaf? || (path[0] in t.children && Blocked(t.children[path[0]], path[1..]))
  {
    if t.Leaf? {
      assert path[..0] == [];
    } else if path[0] in t.children {
      var child := t.children[path[0]];
      if n :| 0 <= n < |path| && IsLeaf(Lookup(t, path[..n])) {
        assert path[..n][1..] == path[1..][..n - 1];
      }
      if n :| 0 <= n < |path[1..]| && IsLeaf(Lookup(child, path[1..][..n])) {
        assert path[..n + 1][0] == path[0] && path[..n + 1][1..] == path[1..][..n];
        assert IsLeaf(Lookup(t, path[..n + 1]));
      }
    } else {
      forall n | 0 <= n < |path| ensures !IsLeaf(Lookup(t, path[..n])) {
        if n > 0 { assert path[..n][0] == path[0]; }
      }
    }
  }

  /** What the merge of two dictionaries holds at a path. */
  function ExpectedAt(a: Tree, b: Tree, path: seq<string>): Option<Tree> {
    var inA, inB := Lookup(a, path), Lookup(b, path);
    if IsLeaf(inA) then inA
    else if IsNode(inA) then (if IsNode(inB) then Some(Merged(inA.value, inB.value)) else inA)
    else if Blocked(a, path) then None
    else inB
  }

  /** The lookup law of the deep merge: at every path, the first dictionary's leaf; nothing below one of its leaves;
      the merge of both subtrees where both have one; its own subtree where only it has one; else the second's value. */
  lemma {:induction false} MergeLookup(a: Tree, b: Tree, path: seq<string>)
    requires a.Node? && b.Node?
    ensures Lookup(Merged(a, b), path) == ExpectedAt(a, b, path)
    decreases |path|
  {
    if path == [] {
    } else {
      var k := path[0];
      BlockedStep(a, path);
      assert Lookup(b, path) == if k in b.children then Lookup(b.children[k], path[1..]) else None;
      if k in a.children && k in b.children && a.children[k].Node? && b.children[k].Node? {
        MergeLookup(a.children[k], b.children[k], path[1..]);
      } else if k in a.children {
        if path[1..] != [] { BlockedStep(a.children[k], path[1..]); }
        if a.children[k].Node? { LookupOrBlocked(a.children[k], path[1..]); }
      }
    }
  }

  /** Below a dictionary a path that is not there either stops at a missing key or at a leaf. */
  lemma {:induction false} LookupOrBlocked(t: Tree, path: seq<string>)
    ensures Blocked(t, path) ==> Lookup(t, path).None?
    ensures Walked(t, path) ==
            if Lookup(t, path).Some? then Found(Lookup(t, path).value)
            else if Blocked(t, path) then NotADictionary
            else UseDefault
    decreases |path|
  {
    if path == [] {
    } else {
      BlockedStep(t, path);
      if t.Node? && path[0] in t.children { LookupOrBlocked(t.children[path[0]], path[1..]); }
    }
  }

  lemma {:induction false} SplitAtDot(s: string, rest: string)
    requires '.' !in s
    ensures FirstDot(s + "." + rest) == |s| && Split(s + "." + rest) == [s] + Split(rest)
  {
    var key := s + "." + rest;
    assert FirstDot(key) == |s| by { DotComesAfter(s, rest); }
    assert key[..|s|] == s && key[|s| + 1..] == rest;
  }

  lemma {:induction false} DotComesAfter(s: string, rest: string)
    requires '.' !in s
    ensures FirstDot(s + "." + rest) == |s|
  {
    if s == "" {
    } else {
      DotComesAfter(s[1..], rest);
      assert (s + "." + rest)[1..] == s[1..] + "." + rest;
    }
  }

  /** A dotted key through a text raises, where one that is merely missing gives the default. */
  lemma DottedReadCanRaise()
    ensures var config := Node(map["cache" := Leaf(Text("redis"))]);
      Walked(config, Split("cache.host")) == NotADictionary && Walked(config, Split("logging.level")) == UseDefault
  {
    assert "cache" + "." + "host" == "cache.host" && "logging" + "." + "level" == "logging.level";
    SplitAtDot("cache", "host");
    SplitAtDot("logging", "level");
    assert "cache" != "logging";
    ReadingThrough("cache", Text("redis"), Split("cache.host"), Split("logging.level"));
  }

  lemma ReadingThrough(k: string, v: Scalar, path: seq<string>, other: seq<string>)
    requires |path| > 1 && path[0] == k && other != [] && other[0] != k
    ensures var config := Node(map[k := Leaf(v)]);
      Walked(config, path) == NotADictionary && Walked(config, other) == UseDefault
  {
  }

  // ---- Files that extend each other ----

  /** The files in the order they are merged in: each before those it extends, and these before the next. */
  function Flattened(names: seq<string>, files: Files, depth: nat): (r: Option<seq<Tree>>)
    requires files.Valid()
    ensures r.Some? ==> forall i :: 0 <= i < |r.value| ==> r.value[i].Node?
    decreases depth, |names|
  {
    if names == [] then Some([])
    else
      var file := files.Named(names[0]);
      var extended := files.Extends(file);
      if files.CannotExtend(file) || (extended != [] && depth == 0) then None
      else
        var inner := if extended == [] then Some([]) else Flattened(extended, files, depth - 1);
        match (inner, Flattened(names[1..], files, depth))
        case (Some(inner), Some(rest)) => Some([file] + inner + rest)
        case _ => None
  }

  /** Which files a file names: the items of a list under `extends`, each character of a text, the keys of a
      dictionary; and none otherwise. */
  lemma ExtendsByShape(files: Files, file: Tree)
    requires files.Valid() && file.Node?
    ensures var names := files.Extends(file);
      match Lookup(file, ["extends"])
      case Some(Leaf(List(items))) => names == items
      case Some(Leaf(Text(t))) => |names| == |t| && forall i :: 0 <= i < |t| ==> names[i] == [t[i]]
      case Some(Node(children)) => forall n :: n in names <==> n in children
      case _ => names == []
  {
    assert ["extends"][1..] == [];
    assert Lookup(file, ["extends"]) == if "extends" in file.children then Some(file.children["extends"]) else None;
  }

  lemma NothingToMerge(config: Tree)
    requires config.Node?
    ensures Merged(config, EMPTY) == config
  {
    assert Merged(config, EMPTY).children == config.children;
  }

  /** Merging in one file: a missing one changes nothing; another is merged in, and after it those it extends, if it
      extends any. A number or a truth value under `extends` ends the run, unless it is zero or false. */
  lemma OneFile(config: Tree, name: string, files: Files, depth: nat)
    requires config.Node? && files.Valid()
    ensures var merged := MergedExtended(config, [name], files, depth);
      if name !in files.named then merged == Some(config)
      else
        var file := files.named[name];
        && ("extends" !in file.children ==> merged == Some(Merged(config, file)))
        && (Lookup(file, ["extends"]).Some? && Lookup(file, ["extends"]).value.Leaf?
            && Lookup(file, ["extends"]).value.value.Other? ==>
             merged == if Lookup(file, ["extends"]).value.value.truthy then None else Some(Merged(config, file)))
        && (depth > 0 && "extends" in file.children && file.children["extends"].Leaf?
            && file.children["extends"].value.List? && file.children["extends"].value.items != [] ==>
             merged == MergedExtended(Merged(config, file), file.children["extends"].value.items, files, depth - 1))
  {
    NothingToMerge(config);
    hide Merged;
    var file := files.Named(name);
    assert [name][1..] == [] && ["extends"][1..] == [];
    var merged := Merged(config, file);
    assert MergedExtended(merged, [], files, depth) == Some(merged);
  }

  /** One dictionary after another merged in. */
  function Layered(config: Tree, layers: seq<Tree>): (r: Tree)
    requires config.Node? && forall i :: 0 <= i < |layers| ==> layers[i].Node?
    ensures r.Node?
    decreases layers
  {
    if layers == [] then config else Layered(Merged(config, layers[0]), layers[1..])
  }

  lemma {:induction false} LayeredInTurn(config: Tree, xs: seq<Tree>, ys: seq<Tree>)
    requires config.Node? && forall i :: 0 <= i < |xs + ys| ==> (xs + ys)[i].Node?
    requires forall i :: 0 <= i < |xs| ==> xs[i].Node?
    requires forall i :: 0 <= i < |ys| ==> ys[i].Node?
    ensures Layered(config, xs + ys) == Layered(Layered(config, xs), ys)
    decreases xs
  {
    hide Merged;
    if xs == [] {
      assert xs + ys == ys;
    } else {
      assert (xs + ys)[1..] == xs[1..] + ys;
      LayeredInTurn(Merged(config, xs[0]), xs[1..], ys);
    }
  }

  /** Extending is merging in the files one after another, in that order. */
  lemma {:induction false} ExtendedIsLayered(config: Tree, names: seq<string>, files: Files, depth: nat)
    requires config.Node? && files.Valid()
    ensures MergedExtended(config, names, files, depth) ==
            match Flattened(names, files, depth)
            case None => None
            case Some(layers) => Some(Layered(config, layers))
    decreases depth, |names|
  {
    hide Merged, Layered;
    if names == [] {
      LayeredOnce(config, []);
    } else {
      var file := files.Named(names[0]);
      var merged, extended := Merged(config, file), files.Extends(file);
      var inner :=
        if files.CannotExtend(file) then None
        else if extended == [] then Some([])
        else if depth == 0 then None
        else Flattened(extended, files, depth - 1);
      if extended == [] {
        LayeredOnce(merged, []);
      } else if depth > 0 && !files.CannotExtend(file) {
        ExtendedIsLayered(merged, extended, files, depth - 1);
      }
      if inner.Some? {
        ExtendedIsLayered(Layered(merged, inner.value), names[1..], files, depth);
        var rest := Flattened(names[1..], files, depth);
        if rest.Some? { LayersJoined(config, file, inner.value, rest.value); }
      }
    }
  }

  lemma LayeredOnce(config: Tree, layers: seq<Tree>)
    requires config.Node? && layers == []
    ensures Layered(config, layers) == config
  {
  }

  lemma LayersJoined(config: Tree, file: Tree, inner: seq<Tree>, rest: seq<Tree>)
    requires config.Node? && file.Node?
    requires (forall i :: 0 <= i < |inner| ==> inner[i].Node?) && (forall i :: 0 <= i < |rest| ==> rest[i].Node?)
    ensures Layered(config, [file] + inner + rest) == Layered(Layered(Merged(config, file), inner), rest)
  {
    LayeredInTurn(Merged(config, file), inner, rest);
    assert ([file] + inner + rest)[1..] == inner + rest;
  }

  lemma {:induction false} LayeringKeepsLeaves(config: Tree, layers: seq<Tree>, path: seq<string>)
    requires config.Node? && forall i :: 0 <= i < |layers| ==> layers[i].Node?
    requires IsLeaf(Lookup(config, path))
    ensures Lookup(Layered(config, layers), path) == Lookup(config, path)
    decreases layers
  {
    if layers == [] {
    } else {
      MergeLookup(config, layers[0], path);
      LayeringKeepsLeaves(Merged(config, layers[0]), layers[1..], path);
    }
  }

  /** However many files are merged in after it, however deep they extend each other, a leaf already set never
      changes. */
  lemma ExtendingKeepsLeaves(config: Tree, names: seq<string>, files: Files, depth: nat, path: seq<string>)
    requires config.Node? && files.Valid()
    requires MergedExtended(config, names, files, depth).Some? && IsLeaf(Lookup(config, path))
    ensures Lookup(MergedExtended(config, names, files, depth).value, path) == Lookup(config, path)
  {
    ExtendedIsLayered(config, names, files, depth);
    LayeringKeepsLeaves(config, Flattened(names, files, depth).value, path);
  }

  /** Nothing is at the path, and no leaf is in its way. */
  predicate Open(t: Tree, path: seq<string>) {
    Lookup(t, path).None? && !Blocked(t, path)
  }

  /** The leaf `x` is in a layer, and what was merged before that layer left its path open. */
  predicate Supplies(config: Tree, layers: seq<Tree>, i: nat, path: seq<string>, x: Tree)
    requires config.Node? && forall i :: 0 <= i < |layers| ==> layers[i].Node?
  {
    i < |layers| && Lookup(layers[i], path) == Some(x) && Open(Layered(config, layers[..i]), path)
  }

  lemma {:induction false} LeafIsSuppliedIff(config: Tree, layers: seq<Tree>, path: seq<string>, x: Tree)
    requires config.Node? && (forall i :: 0 <= i < |layers| ==> layers[i].Node?) && x.Leaf?
    ensures Lookup(Layered(config, layers), path) == Some(x) <==>
              Lookup(config, path) == Some(x) || exists i: nat :: Supplies(config, layers, i, path, x)
    decreases |layers|
  {
    if layers == [] {
    } else {
      var n := |layers| - 1;
      var front, last := layers[..n], layers[n];
      assert layers == front + [last];
      LayeredInTurn(config, front, [last]);
      var before := Layered(config, front);
      assert Layered(before, [last]) == Merged(before, last);
      MergeLookup(before, last, path);
      LeafIsSuppliedIff(config, front, path, x);
      forall i: nat | i < n ensures Supplies(config, layers, i, path, x) <==> Supplies(config, front, i, path, x) {
        assert layers[..i] == front[..i] && layers[i] == front[i];
      }
      assert layers[..n] == front;
      assert Supplies(config, layers, n, path, x) <==> Lookup(last, path) == Some(x) && Open(before, path);
      assert forall i: nat :: Supplies(config, layers, i, path, x) ==> i < n || i == n;
      if i: nat :| Supplies(config, front, i, path, x) { assert Supplies(config, layers, i, path, x); }
    }
  }

  /** A leaf of the result is one of the main file, or else that of the first file that sets its path: of a file,
      however deep it was reached, which found the path open. */
  lemma FirstFileDecides(config: Tree, names: seq<string>, files: Files, depth: nat, path: seq<string>, x: Tree)
    requires config.Node? && files.Valid() && x.Leaf? && MergedExtended(config, names, files, depth).Some?
    ensures Flattened(names, files, depth).Some?
    ensures Lookup(MergedExtended(config, names, files, depth).value, path) == Some(x) <==>
              || Lookup(config, path) == Some(x)
              || exists i: nat :: Supplies(config, Flattened(names, files, depth).value, i, path, x)
  {
    ExtendedIsLayered(config, names, files, depth);
    LeafIsSuppliedIff(config, Flattened(names, files, depth).value, path, x);
  }

  // ---- Building from flat keys ----

  /** Putting succeeds exactly where no leaf is in the way. */
  lemma {:induction false} PutSucceedsIff(d: Tree, path: seq<string>, v: Tree)
    requires path != []
    ensures Put(d, path, v).Ok? <==> !Blocked(d, path)
    decreases |path|
  {
    BlockedStep(d, path);
    if d.Leaf? {
    } else {
      if |path| == 1 {
        assert path[1..] == [];
      } else {
        EmptyIsOpen(path[1..]);
        PutSucceedsIff(if path[0] in d.children then d.children[path[0]] else EMPTY, path[1..], v);
      }
    }
  }

  /** Which exception it is: a TypeError if what is in the way would have to hold the last key, and else an
      AttributeError. */
  lemma {:induction false} PutFailsWith(d: Tree, path: seq<string>, v: Tree)
    requires path != [] && Blocked(d, path)
    ensures Put(d, path, v) ==
              Err(if IsLeaf(Lookup(d, path[..|path| - 1])) then TypeError else AttributeError)
    decreases |path|
  {
    BlockedStep(d, path);
    PutSucceedsIff(d, path, v);
    if d.Leaf? {
      if |path| > 1 { assert Lookup(d, path[..|path| - 1]).None?; }
    } else if |path| > 1 {
      var front := path[..|path| - 1];
      assert front[0] == path[0] && front[1..] == path[1..][..|path| - 2];
      PutFailsWith(d.children[path[0]], path[1..], v);
    }
  }

  /** Putting changes the tree at and below its path only. */
  lemma {:induction false} PutLookup(d: Tree, path: seq<string>, v: Tree, q: seq<string>)
    requires path != [] && Put(d, path, v).Ok?
    ensures if path <= q then Lookup(Put(d, path, v).value, q) == Lookup(v, q[|path|..])
            else if q <= path then IsNode(Lookup(Put(d, path, v).value, q))
            else Lookup(Put(d, path, v).value, q) == Lookup(d, q)
    decreases |path|
  {
    if |path| == 1 {
      if q != [] { assert q[0] == path[0] ==> q == path + q[1..]; }
    } else if q != [] {
      PutLookup(if path[0] in d.children then d.children[path[0]] else EMPTY, path[1..], v, q[1..]);
      SameHead(path, q);
      if path[0] !in d.children && q[1..] != [] { assert Lookup(EMPTY, q[1..]).None?; }
    }
  }

  lemma SameHead(path: seq<string>, q: seq<string>)
    requires path != [] && q != []
    ensures path <= q <==> path[0] == q[0] && path[1..] <= q[1..]
    ensures q <= path <==> path[0] == q[0] && q[1..] <= path[1..]
    ensures path <= q ==> q[1..][|path[1..]|..] == q[|path|..]
  {
    if path[0] == q[0] {
      assert path == [path[0]] + path[1..] && q == [q[0]] + q[1..];
    }
  }

  lemma EmptyIsOpen(path: seq<string>)
    ensures !Blocked(EMPTY, path)
  {
    forall n | 0 <= n < |path| ensures !IsLeaf(Lookup(EMPTY, path[..n])) {}
  }

  /** Splitting at dots loses nothing. */
  function Joined(path: seq<string>): string
    requires path != []
  {
    if |path| == 1 then path[0] else path[0] + "." + Joined(path[1..])
  }

  lemma {:induction false} SplitThenJoin(key: string)
    ensures Joined(Split(key)) == key
    decreases |key|
  {
    var i := FirstDot(key);
    if i == |key| {
      SplitUndotted(key);
    } else {
      var first, rest := key[..i], key[i + 1..];
      assert key == first + "." + rest;
      SplitAtDot(first, rest);
      SplitThenJoin(rest);
      hide Split, FirstDot;
      assert ([first] + Split(rest))[1..] == Split(rest);
    }
  }

  predicate Comparable(p: seq<string>, q: seq<string>) {
    p <= q || q <= p
  }

  /** Of the first `n` entries, the last kept one whose path starts `q` or continues it. */
  function Writer(flat: seq<Entry>, n: nat, q: seq<string>): (w: Option<nat>)
    requires n <= |flat|
    ensures w.Some? ==> w.value < n && Kept(flat[w.value]) && Comparable(Split(flat[w.value].key), q)
    ensures w.Some? ==>
              forall j :: w.value < j < n && Kept(flat[j]) ==> !Comparable(Split(flat[j].key), q)
    ensures w.None? ==> forall j :: 0 <= j < n && Kept(flat[j]) ==> !Comparable(Split(flat[j].key), q)
  {
    if n == 0 then None
    else if Kept(flat[n - 1]) && Comparable(Split(flat[n - 1].key), q) then Some(n - 1)
    else Writer(flat, n - 1, q)
  }

  /** The path of entry `j` starts `q`, and `x` is what its value holds the rest of the way. */
  predicate Writes(flat: seq<Entry>, j: nat, q: seq<string>, x: Option<Tree>)
    requires j < |flat|
  {
    var p := Split(flat[j].key);
    p <= q && Lookup(flat[j].value, q[|p|..]) == x
  }

  /** A leaf was written last at `q`, by the first `n` entries. */
  ghost predicate LeafAt(flat: seq<Entry>, n: nat, q: seq<string>)
    requires n <= |flat|
  {
    var w := Writer(flat, n, q);
    w.Some? && exists x :: IsLeaf(x) && Writes(flat, w.value, q, x)
  }

  /** At every path the tree holds what its last writer wrote: a part of the writer's value, or a dictionary on the way
      to it; and nothing where no one wrote. */
  ghost predicate HoldsLastWritten(d: Tree, flat: seq<Entry>, n: nat)
    requires n <= |flat|
  {
    d.Node? &&
    forall q :: q != [] ==>
      match Writer(flat, n, q)
      case None => Lookup(d, q).None?
      case Some(j) => if Split(flat[j].key) <= q then Writes(flat, j, q, Lookup(d, q)) else IsNode(Lookup(d, q))
  }

  /** No leaf is in the way of entry `j` when its turn comes. */
  ghost predicate WayIsClear(flat: seq<Entry>, j: nat)
    requires j < |flat|
  {
    var p := Split(flat[j].key);
    forall m :: 0 < m < |p| ==> !LeafAt(flat, j, p[..m])
  }

  lemma LeafIsLastWritten(d: Tree, flat: seq<Entry>, n: nat, q: seq<string>)
    requires n <= |flat| && HoldsLastWritten(d, flat, n) && q != []
    ensures IsLeaf(Lookup(d, q)) <==> LeafAt(flat, n, q)
  {
    var w := Writer(flat, n, q);
    if w.Some? && Split(flat[w.value].key) <= q { assert Writes(flat, w.value, q, Lookup(d, q)); }
  }

  lemma PutSucceedsIffClear(d: Tree, flat: seq<Entry>, n: nat)
    requires n < |flat| && HoldsLastWritten(d, flat, n)
    ensures Put(d, Split(flat[n].key), flat[n].value).Ok? <==> WayIsClear(flat, n)
  {
    var p := Split(flat[n].key);
    PutSucceedsIff(d, p, flat[n].value);
    forall m | 0 < m < |p| ensures IsLeaf(Lookup(d, p[..m])) <==> LeafAt(flat, n, p[..m]) {
      LeafIsLastWritten(d, flat, n, p[..m]);
    }
    assert p[..0] == [] && !IsLeaf(Lookup(d, []));
  }

  lemma PutHoldsLastWritten(d: Tree, flat: seq<Entry>, n: nat)
    requires n < |flat| && HoldsLastWritten(d, flat, n) && Kept(flat[n])
    requires Put(d, Split(flat[n].key), flat[n].value).Ok?
    ensures HoldsLastWritten(Put(d, Split(flat[n].key), flat[n].value).value, flat, n + 1)
  {
    var p, v := Split(flat[n].key), flat[n].value;
    var t := Put(d, p, v).value;
    forall q | q != []
      ensures match Writer(flat, n + 1, q)
              case None => Lookup(t, q).None?
              case Some(j) => if Split(flat[j].key) <= q then Writes(flat, j, q, Lookup(t, q)) else IsNode(Lookup(t, q))
    {
      PutLookup(d, p, v, q);
      assert Writer(flat, n + 1, q) == if Comparable(p, q) then Some(n) else Writer(flat, n, q);
    }
  }

  /** Building, whatever the entries hold and in whatever order they come: it succeeds exactly if every kept entry finds
      its way clear, and then every path holds what was written there last. */
  lemma {:induction false} BuiltHoldsLastWritten(d: Tree, flat: seq<Entry>, n: nat)
    requires n <= |flat| && HoldsLastWritten(d, flat, n)
    ensures Built(d, flat[n..]).Ok? <==> forall j :: n <= j < |flat| && Kept(flat[j]) ==> WayIsClear(flat, j)
    ensures Built(d, flat[n..]).Ok? ==> HoldsLastWritten(Built(d, flat[n..]).value, flat, |flat|)
    decreases |flat| - n
  {
    if n == |flat| {
    } else {
      assert flat[n..][0] == flat[n] && flat[n..][1..] == flat[n + 1..];
      if Kept(flat[n]) {
        PutSucceedsIffClear(d, flat, n);
        if WayIsClear(flat, n) {
          PutHoldsLastWritten(d, flat, n);
          BuiltHoldsLastWritten(Put(d, Split(flat[n].key), flat[n].value).value, flat, n + 1);
        }
      } else {
        SkippedHolds(d, flat, n);
        BuiltHoldsLastWritten(d, flat, n + 1);
      }
    }
  }

  lemma SkippedHolds(d: Tree, flat: seq<Entry>, n: nat)
    requires n < |flat| && HoldsLastWritten(d, flat, n) && !Kept(flat[n])
    ensures HoldsLastWritten(d, flat, n + 1)
  {
    assert forall q :: Writer(flat, n + 1, q) == Writer(flat, n, q);
  }

  lemma NothingIsWritten(flat: seq<Entry>)
    ensures HoldsLastWritten(EMPTY, flat, 0)
  {
  }

  /** One entry, built alone: nothing comes of a key that starts with two underscores, of an empty text or an empty
      list; any other reads back. */
  lemma OneEntry(e: Entry)
    ensures var t := Built(EMPTY, [e]);
      if (|e.key| >= 2 && e.key[0] == '_' && e.key[1] == '_') || e.value == Leaf(Text("")) || e.value == Leaf(List([]))
      then t == Ok(EMPTY)
      else t.Ok? && Walked(t.value, Split(e.key)) == Found(e.value)
  {
    var flat, path := [e], Split(e.key);
    assert "__" <= e.key <==> |e.key| >= 2 && e.key[0] == '_' && e.key[1] == '_';
    assert flat[1..] == [];
    if Kept(e) {
      EmptyIsOpen(path);
      PutSucceedsIff(EMPTY, path, e.value);
      var t := Put(EMPTY, path, e.value).value;
      assert Built(t, []) == Ok(t);
      PutLookup(EMPTY, path, e.value, path);
      LookupOrBlocked(t, path);
    }
  }

  lemma BuiltIff(flat: seq<Entry>)
    ensures Built(EMPTY, flat).Ok? <==> forall j :: 0 <= j < |flat| && Kept(flat[j]) ==> WayIsClear(flat, j)
    ensures Built(EMPTY, flat).Ok? ==> HoldsLastWritten(Built(EMPTY, flat).value, flat, |flat|)
  {
    NothingIsWritten(flat);
    assert flat[0..] == flat;
    BuiltHoldsLastWritten(EMPTY, flat, 0);
  }

  // ---- Reading back ----

  /** Every kept entry that is not a dictionary reads back under its dotted key. */
  ghost predicate ReadsBack(flat: seq<Entry>) {
    Built(EMPTY, flat).Ok? &&
    forall i :: 0 <= i < |flat| && Kept(flat[i]) && flat[i].value.Leaf? ==>
      Walked(Built(EMPTY, flat).value, Split(flat[i].key)) == Found(flat[i].value)
  }

  /** The last to write on the way of entry `i` wrote its value there. */
  predicate WrittenLast(flat: seq<Entry>, i: nat)
    requires i < |flat|
  {
    var p := Split(flat[i].key);
    var w := Writer(flat, |flat|, p);
    w.Some? && Writes(flat, w.value, p, Some(flat[i].value))
  }

  lemma ReadBackIff(flat: seq<Entry>, i: nat)
    requires Built(EMPTY, flat).Ok? && i < |flat| && Kept(flat[i]) && flat[i].value.Leaf?
    ensures Walked(Built(EMPTY, flat).value, Split(flat[i].key)) == Found(flat[i].value) <==> WrittenLast(flat, i)
  {
    BuiltIff(flat);
    var t, p := Built(EMPTY, flat).value, Split(flat[i].key);
    LookupOrBlocked(t, p);
    assert Comparable(Split(flat[i].key), p);
  }

  /** The round trip for any entries: they read back exactly if each finds its way clear when its turn comes, and what
      is no dictionary is written there last. */
  lemma ReadsBackIff(flat: seq<Entry>)
    ensures ReadsBack(flat) <==>
              && (forall j :: 0 <= j < |flat| && Kept(flat[j]) ==> WayIsClear(flat, j))
              && forall i :: 0 <= i < |flat| && Kept(flat[i]) && flat[i].value.Leaf? ==> WrittenLast(flat, i)
  {
    BuiltIff(flat);
    if Built(EMPTY, flat).Ok? {
      forall i | 0 <= i < |flat| && Kept(flat[i]) && flat[i].value.Leaf?
        ensures Walked(Built(EMPTY, flat).value, Split(flat[i].key)) == Found(flat[i].value) <==> WrittenLast(flat, i)
      {
        ReadBackIff(flat, i);
      }
    }
  }

  /** As answers to questions come: no key twice, and dictionaries only as empty ones. */
  ghost predicate Answers(flat: seq<Entry>) {
    && (forall i, j :: 0 <= i < j < |flat| ==> flat[i].key != flat[j].key)
    && forall i :: 0 <= i < |flat| && Kept(flat[i]) ==> flat[i].value.Leaf? || flat[i].value == EMPTY
  }

  /** Entry `j` lies above or below entry `i`, which is no dictionary. */
  predicate OnItsWay(flat: seq<Entry>, i: nat, j: nat) {
    && i < |flat| && j < |flat| && i != j && Kept(flat[i]) && Kept(flat[j])
    && flat[i].value.Leaf? && Comparable(Split(flat[j].key), Split(flat[i].key))
  }

  /** What lies above or below an entry that is no dictionary is an empty dictionary, and comes before it. */
  ghost predicate DictionariesFirst(flat: seq<Entry>) {
    forall i: nat, j: nat :: OnItsWay(flat, i, j) ==> flat[j].value == EMPTY && j < i
  }

  lemma DistinctPaths(flat: seq<Entry>, i: nat, j: nat)
    requires Answers(flat) && i < |flat| && j < |flat| && i != j
    ensures Split(flat[i].key) != Split(flat[j].key)
  {
    SplitThenJoin(flat[i].key);
    SplitThenJoin(flat[j].key);
    assert flat[i].key != flat[j].key;
  }

  /** An answer holds a leaf at its very end only. */
  lemma AnswerLeaf(flat: seq<Entry>, j: nat, q: seq<string>, x: Option<Tree>)
    requires Answers(flat) && j < |flat| && Kept(flat[j]) && Writes(flat, j, q, x) && IsLeaf(x)
    ensures flat[j].value.Leaf? && q == Split(flat[j].key)
  {
    var rest := q[|Split(flat[j].key)|..];
    if rest == [] { assert q == Split(flat[j].key) + rest; }
  }

  lemma OrderedAnswersAreClear(flat: seq<Entry>, j: nat)
    requires Answers(flat) && DictionariesFirst(flat) && j < |flat| && Kept(flat[j])
    ensures WayIsClear(flat, j)
  {
    var p := Split(flat[j].key);
    forall m | 0 < m < |p| ensures !LeafAt(flat, j, p[..m]) {
      if LeafAt(flat, j, p[..m]) {
        var w := Writer(flat, j, p[..m]).value;
        var x :| IsLeaf(x) && Writes(flat, w, p[..m], x);
        AnswerLeaf(flat, w, p[..m], x);
        assert OnItsWay(flat, w, j);
      }
    }
  }

  lemma OrderedAnswersAreLast(flat: seq<Entry>, i: nat)
    requires Answers(flat) && DictionariesFirst(flat) && i < |flat| && Kept(flat[i]) && flat[i].value.Leaf?
    ensures WrittenLast(flat, i)
  {
    var p := Split(flat[i].key);
    assert Comparable(p, p);
    var w := Writer(flat, |flat|, p).value;
    assert w != i ==> OnItsWay(flat, i, w);
    assert p[|p|..] == [];
  }

  lemma ReadBackAnswersAreOrdered(flat: seq<Entry>, i: nat, j: nat)
    requires Answers(flat) && ReadsBack(flat) && OnItsWay(flat, i, j)
    ensures flat[j].value == EMPTY && j < i
  {
    ReadsBackIff(flat);
    DistinctPaths(flat, i, j);
    var p := Split(flat[i].key);
    var w := Writer(flat, |flat|, p).value;
    assert Writes(flat, w, p, Some(flat[i].value));
    AnswerLeaf(flat, w, p, Some(flat[i].value));
    if w != i { DistinctPaths(flat, i, w); }
    assert j < i;
    if flat[j].value.Leaf? {
      var q := Split(flat[j].key);
      assert Comparable(p, q);
      var v := Writer(flat, |flat|, q).value;
      AnswerLeaf(flat, v, q, Some(flat[j].value));
      if v != j { DistinctPaths(flat, j, v); }
    }
  }

  /** The round trip for answers: what is no dictionary reads back exactly if all that lies above or below it is an
      empty dictionary and comes before it. Without dictionaries, in whatever order, exactly if no path starts
      another. */
  lemma RoundTripIff(flat: seq<Entry>)
    requires Answers(flat)
    ensures ReadsBack(flat) <==> DictionariesFirst(flat)
  {
    ReadsBackIff(flat);
    if DictionariesFirst(flat) {
      forall j | 0 <= j < |flat| && Kept(flat[j]) ensures WayIsClear(flat, j) { OrderedAnswersAreClear(flat, j); }
      forall i | 0 <= i < |flat| && Kept(flat[i]) && flat[i].value.Leaf? ensures WrittenLast(flat, i) {
        OrderedAnswersAreLast(flat, i);
      }
    }
    if ReadsBack(flat) {
      forall i: nat, j: nat | OnItsWay(flat, i, j) ensures flat[j].value == EMPTY && j < i {
        ReadBackAnswersAreOrdered(flat, i, j);
      }
    }
  }

  /** A key whose path neither starts a kept one nor continues one reads as the default, whatever the entries hold. */
  lemma StrangerReadsDefault(flat: seq<Entry>, key: string)
    requires Built(EMPTY, flat).Ok?
    requires forall i :: 0 <= i < |flat| && Kept(flat[i]) ==> !Comparable(Split(flat[i].key), Split(key))
    ensures Walked(Built(EMPTY, flat).value, Split(key)) == UseDefault
  {
    BuiltIff(flat);
    var t, q := Built(EMPTY, flat).value, Split(key);
    LookupOrBlocked(t, q);
    forall n | 0 <= n < |q| ensures !IsLeaf(Lookup(t, q[..n])) {
      if n > 0 {
        LeafIsLastWritten(t, flat, |flat|, q[..n]);
        assert q[..n] <= q;
      }
    }
  }

  /** An empty dictionary after what was put into it takes it away again; before it, it does no harm. */
  lemma LateDictionaryErases(x: Scalar)
    requires Leaf(x) != Leaf(Text("")) && Leaf(x) != Leaf(List([]))
    ensures var flat := [Entry("ids.1", Leaf(x)), Entry("ids", EMPTY)];
      Built(EMPTY, flat).Ok? && Walked(Built(EMPTY, flat).value, Split("ids.1")) == UseDefault
    ensures ReadsBack([Entry("ids", EMPTY), Entry("ids.1", Leaf(x))])
  {
    DottedPaths();
    assert "__"[0] != "ids"[0] && "__"[0] != "ids.1"[0];
    hide ReadsBack, Split;
    ErasedByLateDictionary("ids.1", "ids", Leaf(x));
    KeptByEarlyDictionary("ids.1", "ids", Leaf(x));
  }

  lemma KeptByEarlyDictionary(k: string, above: string, v: Tree)
    requires Kept(Entry(k, v)) && Kept(Entry(above, EMPTY)) && v.Leaf? && k != above
    ensures ReadsBack([Entry(above, EMPTY), Entry(k, v)])
  {
    var flat := [Entry(above, EMPTY), Entry(k, v)];
    assert flat[0].key != flat[1].key;
    assert forall i: nat, j: nat :: OnItsWay(flat, i, j) ==> i == 1 && j == 0;
    RoundTripIff(flat);
  }

  lemma ErasedByLateDictionary(k: string, above: string, v: Tree)
    requires |Split(k)| == 2 && Split(above) == [Split(k)[0]]
    requires Kept(Entry(k, v)) && Kept(Entry(above, EMPTY))
    ensures var flat := [Entry(k, v), Entry(above, EMPTY)];
      Built(EMPTY, flat).Ok? && Walked(Built(EMPTY, flat).value, Split(k)) == UseDefault
  {
    var flat, p := [Entry(k, v), Entry(above, EMPTY)], Split(k);
    EmptyIsOpen(p);
    PutSucceedsIff(EMPTY, p, v);
    var t := Put(EMPTY, p, v).value;
    assert Built(EMPTY, flat) == Built(t, flat[1..]);
    var u := Put(t, [p[0]], EMPTY).value;
    assert u.children[p[0]] == EMPTY;
    assert Built(t, flat[1..]) == Built(u, flat[1..][1..]) == Ok(u);
  }

  lemma DottedPaths()
    ensures Split("ids.1") == ["ids", "1"] && Split("ids") == ["ids"]
  {
    assert "ids" + "." + "1" == "ids.1";
    hide Split, FirstDot;
    SplitUndotted("ids");
    SplitUndotted("1");
    SplitAtDot("ids", "1");
  }

  lemma SplitUndotted(s: string)
    requires '.' !in s
    ensures Split(s) == [s]
  {
    assert FirstDot(s) == |s|;
  }
}
