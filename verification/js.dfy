/** The slice of JavaScript value semantics the resolvers depend on. */
module Js {

  /**
   * A value read from a record field (`user[key]`, `movie[key]`). Numbers are
   * JavaScript doubles, represented by exact reals: the resolvers only compare
   * them, never compute with them.
   */
  datatype Value =
    | Undefined
    | Null
    | Bool(b: bool)
    | Num(n: real)
    | Str(s: string)
    | StrList(items: seq<string>)

  /** JavaScript truthiness, as used by `&&`, `||` and `!`. */
  predicate Truthy(v: Value)
  {
    match v
    case Undefined => false
    case Null => false
    case Bool(b) => b
    case Num(n) => n != 0.0
    case Str(s) => s != ""
    case StrList(_) => true
  }

  /** The `TypeError`s a filter callback can throw. */
  datatype Fault =
    | NotAFunction(name: string)          // `x.m(...)` where `x` has no method `m`
    | PropertyOfNullish(property: string) // `x.p` where `x` is `undefined` or `null`

  /** What one filter callback does with one record: keep it, drop it, or throw. */
  datatype Verdict = Pass | Reject | Raise(fault: Fault)

  /** The verdict of a callback that returns the boolean `b`. */
  function Holds(b: bool): Verdict
  {
    if b then Pass else Reject
  }

  /**
   * `Array.prototype.every` over callbacks already evaluated in order: the
   * first verdict that is not `Pass` stops the walk and is the outcome.
   */
  function Every(vs: seq<Verdict>): (r: Verdict)
    ensures r == Pass <==> forall i :: 0 <= i < |vs| ==> vs[i] == Pass
    ensures r != Pass ==> exists i :: 0 <= i < |vs| && vs[i] == r && forall j :: 0 <= j < i ==> vs[j] == Pass
  {
    if vs == [] then Pass
    else if vs[0] == Pass then Every(vs[1..])
    else vs[0]
  }

  /** A callback that always returns `true` can be dropped from an `every` chain. */
  lemma {:induction false} EveryIgnoresPass(a: seq<Verdict>, b: seq<Verdict>)
    ensures Every(a + [Pass] + b) == Every(a + b)
  {
    if a == [] {
      assert a + [Pass] + b == [Pass] + b;
      assert ([Pass] + b)[1..] == b;
      assert a + b == b;
    } else {
      assert (a + [Pass] + b)[1..] == a[1..] + [Pass] + b;
      assert (a + b)[1..] == a[1..] + b;
      EveryIgnoresPass(a[1..], b);
    }
  }

  /** The first verdict that is not `Pass` is the outcome of the chain. */
  lemma {:induction false} EveryFirstFailure(vs: seq<Verdict>, i: nat)
    requires i < |vs| && vs[i] != Pass
    requires forall j :: 0 <= j < i ==> vs[j] == Pass
    ensures Every(vs) == vs[i]
  {
    if i > 0 {
      EveryFirstFailure(vs[1..], i - 1);
    }
  }

  /** The chain throws exactly when some callback throws and all before it returned `true`. */
  lemma EveryRaises(vs: seq<Verdict>)
    ensures Every(vs).Raise? <==>
            exists i :: 0 <= i < |vs| && vs[i].Raise? && forall j :: 0 <= j < i ==> vs[j] == Pass
  {
    if exists i :: 0 <= i < |vs| && vs[i].Raise? && forall j :: 0 <= j < i ==> vs[j] == Pass {
      var i :| 0 <= i < |vs| && vs[i].Raise? && forall j :: 0 <= j < i ==> vs[j] == Pass;
      EveryFirstFailure(vs, i);
    }
  }
}
