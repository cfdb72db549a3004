/**
 * Fluent argument guards: a null-defaulting / null-rejecting getter (ObjectGet) and a
 * numeric range checker (NumberCheck) that records at most one lower and one upper
 * bound and then checks them in the order they were added.
 */
module Guards {
  import opened Exceptions
  import opened Decimal

  // ---------------------------------------------------------------------------
  // ObjectGet: a possibly-null value

  /** `get(value)`: wraps a reference that may be null (None). */
  datatype ObjectGet<V> = ObjectGet(value: Option<V>) {

    /** `orDefault(d)`: the wrapped value, or `d` when it is null. */
    function OrDefault(default: V): (r: V)
      ensures value.None? ==> r == default
      ensures value.Some? ==> r == value.value
    {
      match value
      case None => default
      case Some(v) => v
    }

    /** `orComplain(message)`: the wrapped value, or IllegalArgumentException(message) when null. */
    function OrComplain(message: string): (r: Result<V>)
      ensures r.Failure? <==> value.None?
      ensures r.Failure? ==> r.error == IllegalArgument(message)
      ensures r.Success? ==> r.value == value.value
    {
      match value
      case None => Failure(IllegalArgument(message))
      case Some(v) => Success(v)
    }
  }

  /** The two getters agree: when orComplain returns, it returns what orDefault returns, and
      it throws exactly when the value is null, which is when orDefault falls back to its
      default. */
  lemma OrComplainAgreesWithOrDefault<V>(g: ObjectGet<V>, message: string, default: V)
    ensures g.OrComplain(message).Success? ==> g.OrComplain(message).value == g.OrDefault(default)
    ensures g.OrComplain(message).Failure? <==> g.value.None?
    ensures g.value.None? ==> g.OrDefault(default) == default
  {
  }

  // ---------------------------------------------------------------------------
  // NumberCheck operations

  /** The four comparison classes. */
  datatype Kind = GreaterThan | GreaterThanOrEqual | LessThan | LessThanOrEqual

  const LowerKinds: seq<Kind> := [GreaterThan, GreaterThanOrEqual]
  const UpperKinds: seq<Kind> := [LessThan, LessThanOrEqual]

  /** One recorded comparison against a bound. */
  datatype Operation = Operation(kind: Kind, bound: int) {

    function Symbol(): string {
      match kind
      case GreaterThan => ">"
      case GreaterThanOrEqual => ">="
      case LessThan => "<"
      case LessThanOrEqual => "<="
    }

    /** `apply(base)`: does `base <symbol> bound` hold? */
    predicate Apply(base: int) {
      match kind
      case GreaterThan => base > bound
      case GreaterThanOrEqual => base >= bound
      case LessThan => base < bound
      case LessThanOrEqual => base <= bound
    }

    /** `toString()`: the symbol, a space, the bound. */
    function ToString(): string {
      Symbol() + " " + IntToString(bound)
    }
  }

  /** Strictness of the comparisons: `>` and `<` exclude the bound, `>=` and `<=` include it,
      and each non-strict comparison is its strict one widened by exactly the bound. */
  lemma ApplyAtBound(bound: int, base: int)
    ensures !Operation(GreaterThan, bound).Apply(bound) && !Operation(LessThan, bound).Apply(bound)
    ensures Operation(GreaterThanOrEqual, bound).Apply(bound) && Operation(LessThanOrEqual, bound).Apply(bound)
    ensures Operation(GreaterThanOrEqual, bound).Apply(base) <==> Operation(GreaterThan, bound).Apply(base) || base == bound
    ensures Operation(LessThanOrEqual, bound).Apply(base) <==> Operation(LessThan, bound).Apply(base) || base == bound
    ensures Operation(GreaterThan, bound).Apply(base) <==> !Operation(LessThanOrEqual, bound).Apply(base)
  {
  }

  /** Two operations render to the same text only when they are the same operation, so the
      complaint message identifies the failing operation. */
  lemma ToStringIdentifiesOperation(a: Operation, b: Operation)
    requires a.ToString() == b.ToString()
    ensures a == b
  {
    var sa, sb := a.Symbol(), b.Symbol();
    var ia, ib := IntToString(a.bound), IntToString(b.bound);
    var ta, tb := a.ToString(), b.ToString();
    assert ta == sa + " " + ia && tb == sb + " " + ib;
    if |sa| == |sb| {
      assert sa == ta[..|sa|] && sb == tb[..|sb|];
      assert ia == ta[|sa| + 1..] && ib == tb[|sb| + 1..];
      IntToStringInjective(a.bound, b.bound);
      assert a.kind == b.kind;
    } else {
      SecondCharacter(a);
      SecondCharacter(b);
      assert false;
    }
  }

  /** Position 1 of the text is ' ' after a one-character symbol and '=' after a two-character one. */
  lemma SecondCharacter(o: Operation)
    ensures |o.ToString()| > 1
    ensures o.ToString()[1] == (if |o.Symbol()| == 1 then ' ' else '=')
  {
  }

  /** Number of operations whose kind is one of `kinds`. */
  function CountOf(ops: seq<Operation>, kinds: seq<Kind>): nat {
    if ops == [] then 0
    else CountOf(ops[..|ops| - 1], kinds) + (if ops[|ops| - 1].kind in kinds then 1 else 0)
  }

  lemma {:induction false} CountOfZero(ops: seq<Operation>, kinds: seq<Kind>)
    ensures CountOf(ops, kinds) == 0 <==> forall i :: 0 <= i < |ops| ==> ops[i].kind !in kinds
  {
    if ops != [] {
      CountOfZero(ops[..|ops| - 1], kinds);
      assert forall i :: 0 <= i < |ops| - 1 ==> ops[..|ops| - 1][i] == ops[i];
    }
  }

  lemma CountOfSnoc(ops: seq<Operation>, op: Operation, kinds: seq<Kind>)
    ensures CountOf(ops + [op], kinds) == CountOf(ops, kinds) + (if op.kind in kinds then 1 else 0)
  {
    assert (ops + [op])[..|ops|] == ops;
  }

  /** Every operation is either a lower or an upper bound, so the counts add up to the length. */
  lemma {:induction false} LowerPlusUpper(ops: seq<Operation>)
    ensures CountOf(ops, LowerKinds) + CountOf(ops, UpperKinds) == |ops|
  {
    if ops != [] {
      LowerPlusUpper(ops[..|ops| - 1]);
      match ops[|ops| - 1].kind
      case GreaterThan => assert LowerKinds[0] == GreaterThan;
      case GreaterThanOrEqual => assert LowerKinds[1] == GreaterThanOrEqual;
      case LessThan => assert UpperKinds[0] == LessThan;
      case LessThanOrEqual => assert UpperKinds[1] == LessThanOrEqual;
    }
  }

  /** The builder's invariant: at most one lower bound and at most one upper bound. */
  ghost predicate WellFormed(ops: seq<Operation>) {
    CountOf(ops, LowerKinds) <= 1 && CountOf(ops, UpperKinds) <= 1
  }

  /** Hence a checker never holds more than two operations. */
  lemma WellFormedHasAtMostTwo(ops: seq<Operation>)
    requires WellFormed(ops)
    ensures |ops| <= 2
  {
    LowerPlusUpper(ops);
  }

  /** The position of the first operation, in insertion order, that `value` fails. */
  function FirstFailing(ops: seq<Operation>, value: int): (r: Option<nat>)
    ensures r.None? <==> forall i :: 0 <= i < |ops| ==> ops[i].Apply(value)
    ensures r.Some? ==> r.value < |ops| && !ops[r.value].Apply(value)
    ensures r.Some? ==> forall j :: 0 <= j < r.value ==> ops[j].Apply(value)
  {
    if ops == [] then None
    else if !ops[0].Apply(value) then Some(0)
    else match FirstFailing(ops[1..], value)
      case None => None
      case Some(k) => Some(k + 1)
  }

  /** What `orComplain()` does with `value` and the recorded operations: it returns normally
      exactly when there is an operation and every one holds; otherwise it names the first
      failing operation, or complains that there is none. */
  function Verdict(value: int, ops: seq<Operation>): (r: Outcome)
    ensures r.Pass? <==> ops != [] && forall i :: 0 <= i < |ops| ==> ops[i].Apply(value)
    ensures ops == [] ==> r == Fail(IllegalState("No operation"))
    ensures r.Fail? && ops != [] ==>
      exists k :: 0 <= k < |ops| && !ops[k].Apply(value) && (forall j :: 0 <= j < k ==> ops[j].Apply(value)) &&
        r.error == IllegalArgument("Number should " + ops[k].ToString())
  {
    if ops == [] then Fail(IllegalState("No operation"))
    else match FirstFailing(ops, value)
      case None => Pass
      case Some(k) => Fail(IllegalArgument("Number should " + ops[k].ToString()))
  }

  // ---------------------------------------------------------------------------
  // NumberCheck: the builder

  /** `check(value)`: a checker that accumulates operations in a list it appends to. */
  class NumberCheck {
    const value: int
    var operations: seq<Operation>

    ghost predicate Valid()
      reads this
    {
      WellFormed(operations)
    }

    constructor (value: int)
      ensures Valid()
      ensures this.value == value && operations == []
    {
      this.value := value;
      operations := [];
    }

    /** `complainIf(reason, classes...)`: throws IllegalStateException(reason) when some
        recorded operation is of one of the given classes. */
    method ComplainIf(reason: string, kinds: seq<Kind>) returns (r: Outcome)
      ensures r.Fail? <==> exists i :: 0 <= i < |operations| && operations[i].kind in kinds
      ensures r.Fail? ==> r.error == IllegalState(reason)
    {
      var i := 0;
      while i < |operations|
        invariant 0 <= i <= |operations|
        invariant forall m :: 0 <= m < i ==> operations[m].kind !in kinds
      {
        var j := 0;
        while j < |kinds|
          invariant 0 <= j <= |kinds|
          invariant forall n :: 0 <= n < j ==> operations[i].kind != kinds[n]
        {
          if operations[i].kind == kinds[j] {
            return Fail(IllegalState(reason));
          }
          j := j + 1;
        }
        i := i + 1;
      }
      return Pass;
    }

    /** Appends `op` unless an operation of the same side (`kinds`) is already recorded. */
    method Add(op: Operation, reason: string, kinds: seq<Kind>) returns (r: Result<NumberCheck>)
      requires Valid()
      requires op.kind in kinds && (kinds == LowerKinds || kinds == UpperKinds)
      modifies this
      ensures Valid()
      ensures r.Failure? <==> CountOf(old(operations), kinds) > 0
      ensures r.Failure? ==> r.error == IllegalState(reason) && operations == old(operations)
      ensures r.Success? ==> r.value == this && operations == old(operations) + [op]
    {
      var complaint := ComplainIf(reason, kinds);
      CountOfZero(operations, kinds);
      if complaint.Fail? {
        return Failure(complaint.error);
      }
      CountOfSnoc(operations, op, LowerKinds);
      CountOfSnoc(operations, op, UpperKinds);
      operations := operations + [op];
      return Success(this);
    }

    /** `greaterThan(bound)`: records `> bound`, unless a lower bound is already recorded. */
    method GreaterThan(bound: int) returns (r: Result<NumberCheck>)
      requires Valid()
      modifies this
      ensures Valid()
      ensures r.Failure? <==> CountOf(old(operations), LowerKinds) > 0
      ensures r.Failure? ==> r.error == IllegalState("Complicit greater operation") && operations == old(operations)
      ensures r.Success? ==> r.value == this && operations == old(operations) + [Operation(Kind.GreaterThan, bound)]
    {
      r := Add(Operation(Kind.GreaterThan, bound), "Complicit greater operation", LowerKinds);
    }

    /** `greaterThanOrEqual(bound)`: records `>= bound`, unless a lower bound is already recorded. */
    method GreaterThanOrEqual(bound: int) returns (r: Result<NumberCheck>)
      requires Valid()
      modifies this
      ensures Valid()
      ensures r.Failure? <==> CountOf(old(operations), LowerKinds) > 0
      ensures r.Failure? ==> r.error == IllegalState("Complicit greater operation") && operations == old(operations)
      ensures r.Success? ==> r.value == this && operations == old(operations) + [Operation(Kind.GreaterThanOrEqual, bound)]
    {
      r := Add(Operation(Kind.GreaterThanOrEqual, bound), "Complicit greater operation", LowerKinds);
    }

    /** `lessThan(bound)`: records `< bound`, unless an upper bound is already recorded. */
    method LessThan(bound: int) returns (r: Result<NumberCheck>)
      requires Valid()
      modifies this
      ensures Valid()
      ensures r.Failure? <==> CountOf(old(operations), UpperKinds) > 0
      ensures r.Failure? ==> r.error == IllegalState("Complicit less operation") && operations == old(operations)
      ensures r.Success? ==> r.value == this && operations == old(operations) + [Operation(Kind.LessThan, bound)]
    {
      r := Add(Operation(Kind.LessThan, bound), "Complicit less operation", UpperKinds);
    }

    /** `lessThanOrEqual(bound)`: records `<= bound`, unless an upper bound is already recorded. */
    method LessThanOrEqual(bound: int) returns (r: Result<NumberCheck>)
      requires Valid()
      modifies this
      ensures Valid()
      ensures r.Failure? <==> CountOf(old(operations), UpperKinds) > 0
      ensures r.Failure? ==> r.error == IllegalState("Complicit less operation") && operations == old(operations)
      ensures r.Success? ==> r.value == this && operations == old(operations) + [Operation(Kind.LessThanOrEqual, bound)]
    {
      r := Add(Operation(Kind.LessThanOrEqual, bound), "Complicit less operation", UpperKinds);
    }

    /** `orComplain()`: checks every recorded operation in insertion order. */
    method OrComplain() returns (r: Outcome)
      ensures r == Verdict(value, operations)
    {
      if |operations| == 0 {
        return Fail(IllegalState("No operation"));
      }
      var i := 0;
      while i < |operations|
        invariant 0 <= i <= |operations|
        invariant forall m :: 0 <= m < i ==> operations[m].Apply(value)
      {
        if !operations[i].Apply(value) {
          ghost var first := FirstFailing(operations, value);
          assert first.Some?;
          assert !(first.value < i) && !(first.value > i);
          return Fail(IllegalArgument("Number should " + operations[i].ToString()));
        }
        i := i + 1;
      }
      assert FirstFailing(operations, value).None?;
      return Pass;
    }
  }

  // ---------------------------------------------------------------------------
  // The checker's behaviour on whole builder chains

  /** `check(19).greaterThanOrEqual(1).lessThan(18).orComplain()` names the upper bound. */
  method NotInRange() returns (r: Outcome)
    ensures r == Fail(IllegalArgument("Number should < 18"))
  {
    var check := new NumberCheck(19);
    var _ := check.GreaterThanOrEqual(1);
    CountOfSnoc([], Operation(Kind.GreaterThanOrEqual, 1), UpperKinds);
    var _ := check.LessThan(18);
    assert check.operations == [Operation(Kind.GreaterThanOrEqual, 1), Operation(Kind.LessThan, 18)];
    r := check.OrComplain();
    UpperBoundNamed();
  }

  lemma UpperBoundNamed()
    ensures Verdict(19, [Operation(Kind.GreaterThanOrEqual, 1), Operation(Kind.LessThan, 18)])
         == Fail(IllegalArgument("Number should < 18"))
  {
    var ops := [Operation(Kind.GreaterThanOrEqual, 1), Operation(Kind.LessThan, 18)];
    assert FirstFailing(ops[1..], 19) == Some(0);
    assert FirstFailing(ops, 19) == Some(1);
    assert IntToString(18) == "18" by {
      assert NatToString(18) == NatToString(1) + [DigitChar(8)];
    }
    assert ops[1].ToString() == "< 18";
    assert "Number should " + "< 18" == "Number should < 18";
  }

  /** `check(5).greaterThan(0).lessThanOrEqual(8).orComplain()` returns normally. */
  method InRange() returns (r: Outcome)
    ensures r == Pass
  {
    var check := new NumberCheck(5);
    var _ := check.GreaterThan(0);
    CountOfSnoc([], Operation(Kind.GreaterThan, 0), UpperKinds);
    var _ := check.LessThanOrEqual(8);
    assert check.operations == [Operation(Kind.GreaterThan, 0), Operation(Kind.LessThanOrEqual, 8)];
    r := check.OrComplain();
  }

  /** `check(1).lessThan(3).lessThanOrEqual(4)` is refused at the second upper bound. */
  method ComplicitLess() returns (r: Result<NumberCheck>)
    ensures r == Failure(IllegalState("Complicit less operation"))
  {
    var check := new NumberCheck(1);
    var _ := check.LessThan(3);
    CountOfSnoc([], Operation(Kind.LessThan, 3), UpperKinds);
    r := check.LessThanOrEqual(4);
  }

  /** `check(1).greaterThanOrEqual(3).greaterThan(4)` is refused at the second lower bound. */
  method ComplicitGreater() returns (r: Result<NumberCheck>)
    ensures r == Failure(IllegalState("Complicit greater operation"))
  {
    var check := new NumberCheck(1);
    var _ := check.GreaterThanOrEqual(3);
    CountOfSnoc([], Operation(Kind.GreaterThanOrEqual, 3), LowerKinds);
    r := check.GreaterThan(4);
  }

  /** `check(0).orComplain()` with nothing recorded is an illegal state. */
  method NoOperation() returns (r: Outcome)
    ensures r == Fail(IllegalState("No operation"))
  {
    var check := new NumberCheck(0);
    r := check.OrComplain();
  }
}
