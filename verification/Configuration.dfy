/** Nested configurations: the left-biased deep merge of `config.py`, dotted lookup, and the builder of
    `generate.py` that turns flat dotted keys into nested dictionaries. */
module Configuration {
  import opened Outcomes

  /** Numbers, truth values and null are kept as they print; null, zero and false are not truthy. */
  datatype Scalar = Text(text: string) | List(items: seq<string>) | Other(printed: string, truthy: bool)

  /** A YAML value: a dictionary, or anything else. */
  datatype Tree = Leaf(value: Scalar) | Node(children: map<string, Tree>)

  const EMPTY := Node(map[])

  /** `dict_merge`: what the first dictionary has wins, except that two dictionaries are merged in turn. */
  function Merged(a: Tree, b: Tree): (r: Tree)
    requires a.Node? && b.Node?
    ensures r.Node?
    decreases b
  {
    Node(map k | k in a.children.Keys + b.children.Keys ::
           if k in a.children && k in b.children && a.children[k].Node? && b.children[k].Node?
           then Merged(a.children[k], b.children[k])
           else if k in a.children then a.children[k]
           else b.children[k])
  }

  method DictMerge(dct: Tree, mergeDct: Tree) returns (r: Tree)
    requires dct.Node? && mergeDct.Node?
    ensures r == Merged(dct, mergeDct)
    decreases mergeDct
  {
    var children := dct.children;
    var rest := mergeDct.children.Keys;
    while rest != {}
      invariant rest <= mergeDct.children.Keys
      invariant children.Keys == dct.children.Keys + (mergeDct.children.Keys - rest)
      invariant forall k :: k in children ==>
                  (children[k] == if k in rest then dct.children[k] else Merged(dct, mergeDct).children[k])
      decreases rest
    {
      var k :| k in rest;
      if k in children && children[k].Node? && mergeDct.children[k].Node? {
        var child := DictMerge(children[k], mergeDct.children[k]);
        children := children[k := child];
      } else if k !in children {
        children := children[k := mergeDct.children[k]];
      }
      rest := rest - {k};
    }
    r := Node(children);
  }

  /** The subtree under a path of keys. */
  function Lookup(t: Tree, path: seq<string>): Option<Tree> {
    if path == [] then Some(t)
    else if t.Node? && path[0] in t.children then Lookup(t.children[path[0]], path[1..])
    else None
  }

  /** Splitting a dotted key. */
  function FirstDot(s: string): (i: nat)
    ensures i <= |s| && '.' !in s[..i] && (i < |s| ==> s[i] == '.')
  {
    if s == "" || s[0] == '.' then 0 else 1 + FirstDot(s[1..])
  }

  function Split(key: string): (path: seq<string>)
    ensures path != []
    decreases |key|
  {
    var i := FirstDot(key);
    if i == |key| then [key] else [key[..i]] + Split(key[i + 1..])
  }

  /** What `Configuration.get` ends in: a value, the default, or a TypeError from indexing what is no dictionary. */
  datatype Reading = Found(value: Tree) | UseDefault | NotADictionary

  function Walked(t: Tree, path: seq<string>): Reading {
    if path == [] then Found(t)
    else if t.Leaf? then NotADictionary
    else if path[0] !in t.children then UseDefault
    else Walked(t.children[path[0]], path[1..])
  }

  method Get(config: Tree, key: string) returns (r: Reading)
    ensures r == Walked(config, Split(key))
  {
    var value, path := config, Split(key);
    assert path[0..] == path;
    for i := 0 to |path|
      invariant Walked(config, path) == Walked(value, path[i..])
    {
      assert path[i..][0] == path[i] && path[i..][1..] == path[i + 1..];
      if value.Leaf? { return NotADictionary; }
      if path[i] !in value.children { return UseDefault; }
      value := value.children[path[i]];
    }
    return Found(value);
  }

  /** What comes of assigning under a path in something that is no dictionary: `d.get` for a path that goes on,
      `d[k] = v` for one that does not. */
  function NoDictionary(path: seq<string>): Error {
    if |path| > 1 then AttributeError else TypeError
  }

  /** Assigning under a path, making dictionaries on the way; an exception where something else is in the way. */
  function Put(d: Tree, path: seq<string>, v: Tree): Result<Tree>
    requires path != []
    decreases |path|
  {
    if d.Leaf? then Err(NoDictionary(path))
    else if |path| == 1 then Ok(Node(d.children[path[0] := v]))
    else
      var child :- Put(if path[0] in d.children then d.children[path[0]] else EMPTY, path[1..], v);
      Ok(Node(d.children[path[0] := child]))
  }

  /** `update_nested_dict`, which splits the key as it goes. */
  method UpdateNestedDict(d: Tree, k: string, v: Tree) returns (r: Result<Tree>)
    ensures r == Put(d, Split(k), v)
    decreases |k|
  {
    var i := FirstDot(k);
    if i < |k| {
      if d.Leaf? { return Err(AttributeError); }
      var curKey, leftoverKey := k[..i], k[i + 1..];
      assert Split(k) == [curKey] + Split(leftoverKey) && Split(k)[1..] == Split(leftoverKey);
      var child := UpdateNestedDict(if curKey in d.children then d.children[curKey] else EMPTY, leftoverKey, v);
      if child.Err? { return child; }
      return Ok(Node(d.children[curKey := child.value]));
    } else {
      if d.Leaf? { return Err(TypeError); }
      return Ok(Node(d.children[k := v]));
    }
  }

  datatype Entry = Entry(key: string, value: Tree)

  /** Templated variables and empty values are skipped. */
  predicate Kept(e: Entry) {
    !("__" <= e.key) && e.value != Leaf(Text("")) && e.value != Leaf(List([]))
  }

  function Built(d: Tree, flat: seq<Entry>): Result<Tree>
    decreases flat
  {
    if flat == [] then Ok(d)
    else if !Kept(flat[0]) then Built(d, flat[1..])
    else
      var next :- Put(d, Split(flat[0].key), flat[0].value);
      Built(next, flat[1..])
  }

  method GenerateConsolemeStyleConfig(flat: seq<Entry>) returns (r: Result<Tree>)
    ensures r == Built(EMPTY, flat)
  {
    var generated := EMPTY;
    assert flat[0..] == flat;
    for i := 0 to |flat|
      invariant Built(EMPTY, flat) == Built(generated, flat[i..])
    {
      assert flat[i..][0] == flat[i] && flat[i..][1..] == flat[i + 1..];
      if "__" <= flat[i].key { continue; }
      var val := flat[i].value;
      if val == Leaf(Text("")) || val == Leaf(List([])) { continue; }
      var next := UpdateNestedDict(generated, flat[i].key, val);
      if next.Err? { return next; }
      generated := next.value;
    }
    return Ok(generated);
  }

  /** The extended configurations by name, and the order in which a dictionary gives its keys. */
  datatype Files = Files(named: map<string, Tree>, order: map<string, Tree> -> seq<string>) {
    ghost predicate Valid() {
      (forall n :: n in named ==> named[n].Node?) && forall m, n :: n in order(m) <==> n in m
    }

    /** A missing file counts as empty. */
    function Named(n: string): (file: Tree)
      requires Valid()
      ensures file.Node?
    {
      if n in named then named[n] else EMPTY
    }

    /** What stands under `extends` is there, but cannot be gone through. */
    predicate CannotExtend(file: Tree)
      requires file.Node?
    {
      "extends" in file.children && file.children["extends"].Leaf? && file.children["extends"].value.Other?
      && file.children["extends"].value.truthy
    }

    /** The names gone through under `extends`: the items of a list, the characters of a text, the keys of a
        dictionary. */
    function Extends(file: Tree): seq<string>
      requires file.Node?
    {
      if "extends" !in file.children then []
      else match file.children["extends"]
           case Leaf(Text(t)) => seq(|t|, i requires 0 <= i < |t| => [t[i]])
           case Leaf(List(items)) => items
           case Leaf(Other(_, _)) => []
           case Node(children) => if children == map[] then [] else order(children)
    }
  }

  /** `merge_extended_paths`. `depth` is how deep Python lets the recursion go. Nothing comes of a run that goes deeper,
      or that meets an `extends` it cannot go through. */
  function MergedExtended(config: Tree, names: seq<string>, files: Files, depth: nat): (r: Option<Tree>)
    requires config.Node? && files.Valid()
    ensures r.Some? ==> r.value.Node?
    decreases depth, |names|
  {
    if names == [] then Some(config)
    else
      var file := files.Named(names[0]);
      var merged := Merged(config, file);
      if files.CannotExtend(file) then None
      else if files.Extends(file) == [] then MergedExtended(merged, names[1..], files, depth)
      else if depth == 0 then None
      else
        match MergedExtended(merged, files.Extends(file), files, depth - 1)
        case None => None
        case Some(deeper) => MergedExtended(deeper, names[1..], files, depth)
  }

  method MergeExtendedPaths(config: Tree, names: seq<string>, files: Files, depth: nat) returns (r: Option<Tree>)
    requires config.Node? && files.Valid()
    ensures r == MergedExtended(config, names, files, depth)
    decreases depth
  {
    hide Merged;
    var current := config;
    assert names[0..] == names;
    for i := 0 to |names|
      invariant current.Node?
      invariant MergedExtended(config, names, files, depth) == MergedExtended(current, names[i..], files, depth)
    {
      assert names[i..][0] == names[i] && names[i..][1..] == names[i + 1..];
      var file := files.Named(names[i]);
      current := DictMerge(current, file);
      if files.CannotExtend(file) { return None; }
      var extended := files.Extends(file);
      if extended != [] {
        if depth == 0 { return None; }
        var deeper := MergeExtendedPaths(current, extended, files, depth - 1);
        if deeper.None? { return None; }
        current := deeper.value;
      }
    }
    return Some(current);
  }
}
