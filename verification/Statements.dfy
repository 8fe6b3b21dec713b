/** IAM policy statements as the dictionaries the code passes around, and what they mean. */
module Statements {
  import opened Globs
  import opened Strings

  /** The keys of a statement. `Other` stands for Condition, Principal, IncludeAccounts, ExcludeAccounts, ... */
  datatype Field = Resource | Action | NotAction | NotResource | NotPrincipal | Sid | Effect | Other(name: string)

  /** A condition is kept as its text: it is only ever compared. */
  datatype Value = Text(text: string) | Entries(entries: seq<string>)

  type Statement = map<Field, Value>

  /** The elements the code normalises and merges, in its order. */
  const ELEMENTS: seq<Field> := [Resource, Action, NotAction, NotResource, NotPrincipal]

  /** The place of a key in `ELEMENTS`; 5 for a key that is not there. */
  function Position(k: Field): (n: nat)
    ensures n <= 5
    ensures n < 5 ==> ELEMENTS[n] == k
  {
    match k
    case Resource => 0
    case Action => 1
    case NotAction => 2
    case NotResource => 3
    case NotPrincipal => 4
    case _ => 5
  }

  predicate IsElement(k: Field) { Position(k) < 5 }

  predicate Truthy(st: Statement, k: Field) {
    k in st && st[k] != Text("") && st[k] != Entries([])
  }

  function AsList(v: Value): seq<string> {
    match v
    case Text(t) => [t]
    case Entries(xs) => xs
  }

  /** Action names are case-insensitive, resource names are not. */
  function Folded(e: Field, s: string): string {
    if e.Action? || e.NotAction? then Lower(s) else s
  }

  function FoldedAll(e: Field, xs: seq<string>): (ys: seq<string>)
    ensures |ys| == |xs| && forall i {:trigger ys[i]} :: 0 <= i < |xs| ==> ys[i] == Folded(e, xs[i])
  {
    if e.Action? || e.NotAction? then LowerAll(xs) else xs
  }

  ghost predicate AnyMatch(ps: seq<string>, s: string) {
    exists p :: p in ps && IamMatch(s, p)
  }

  /** The value `v` of element `e` names `s`. */
  ghost predicate Names(e: Field, v: Value, s: string) {
    AnyMatch(FoldedAll(e, AsList(v)), Folded(e, s))
  }

  ghost predicate CoversAction(st: Statement, action: string) {
    (Action in st && Names(Action, st[Action], action)) ||
    (NotAction in st && !Names(NotAction, st[NotAction], action))
  }

  ghost predicate CoversResource(st: Statement, resource: string) {
    (Resource in st && Names(Resource, st[Resource], resource)) ||
    (NotResource in st && !Names(NotResource, st[NotResource], resource))
  }

  ghost predicate Covers(st: Statement, action: string, resource: string) {
    CoversAction(st, action) && CoversResource(st, resource)
  }

  /** A list compared without order or repetition. */
  datatype Unordered = Scalar(text: string) | Members(members: set<string>)

  function AsUnordered(v: Value): Unordered {
    match v
    case Text(t) => Scalar(t)
    case Entries(xs) => Members(set x | x in xs)
  }

  predicate IsRest(k: Field) { k.Effect? || k.Other? }

  /** Under what effect, condition, principal and account limits a statement applies. */
  function Terms(st: Statement): map<Field, Unordered> {
    map k | k in st && IsRest(k) :: AsUnordered(st[k])
  }

  /** Some statement of the list covers the request under exactly these terms. */
  ghost predicate Grants(sts: seq<Statement>, terms: map<Field, Unordered>, action: string, resource: string) {
    exists st :: st in sts && Terms(st) == terms && Covers(st, action, resource)
  }

  /** Exactly one of Action and NotAction, exactly one of Resource and NotResource, none of them an empty text. */
  predicate WellFormed(st: Statement) {
    (Action in st <==> NotAction !in st) && (Resource in st <==> NotResource !in st) && NotPrincipal !in st &&
    forall k :: k in st && IsElement(k) ==> st[k] != Text("")
  }

  /** A well-formed statement all of whose elements are lists, as normalisation leaves it. */
  predicate Tidy(st: Statement) {
    WellFormed(st) && forall k :: k in st && IsElement(k) ==> st[k].Entries?
  }

  predicate Positive(st: Statement) {
    NotAction !in st && NotResource !in st
  }

  datatype Decision = Denied | Allowed | NoMatch

  /** Under some terms that apply, the statements cover the request with the effect. */
  ghost predicate Applies(
      sts: seq<Statement>, applies: map<Field, Unordered> -> bool, effect: string, action: string, resource: string) {
    exists terms :: applies(terms) && HasEffect(terms, effect) && Grants(sts, terms, action, resource)
  }

  /** IAM's deny-overrides evaluation, for whatever subset of terms applies to the caller. */
  ghost function Decide(sts: seq<Statement>, applies: map<Field, Unordered> -> bool, action: string,
      resource: string): Decision {
    if Applies(sts, applies, "Deny", action, resource) then Denied
    else if Applies(sts, applies, "Allow", action, resource) then Allowed
    else NoMatch
  }

  predicate HasEffect(terms: map<Field, Unordered>, effect: string) {
    Effect in terms && terms[Effect] == Scalar(effect)
  }
}
