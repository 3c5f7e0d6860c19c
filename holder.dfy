/**
 * `Holder`: a value holder that is either static (its value captured when
 * it is made) or lazy (its value computed by a factory on first demand).
 * A lazy holder runs its factory at most once, and an explicit `set`
 * overrides the value and makes the factory unnecessary. Only the
 * single-threaded behaviour is modelled: the state of a lazy holder is the
 * `Cell` below, and the holder classes are proved to follow `GetStep` and
 * `SetStep`.
 */
module Holders {
  import opened Optional

  /** A Java `int`. */
  type Int32 = x: int | -0x8000_0000 <= x < 0x8000_0000

  /** Where a holder's value comes from: captured at creation, or computed by `evaluate`. */
  datatype Source<V> = Static(value: V) | Lazy(evaluate: () -> V)

  /**
   * The state of a holder: whether a value has been stored, that value,
   * and (for the model only) how many times the factory has run.
   */
  datatype Cell<V> = Cell(isSet: bool, value: V, evaluations: nat)

  /** A holder that has not been read or set yet. */
  function Fresh<V>(initial: V): Cell<V>
  {
    Cell(false, initial, 0)
  }

  /** The factory has run at most once, and not at all while no value is stored. */
  predicate AtMostOnce<V>(c: Cell<V>)
  {
    c.evaluations <= 1 && (!c.isSet ==> c.evaluations == 0)
  }

  /**
   * `get()`: a static holder returns its value; a lazy holder returns the
   * stored value, or first stores the factory's result.
   */
  function GetStep<V>(src: Source<V>, c: Cell<V>): (Cell<V>, V)
  {
    match src
    case Static(v) => (c, v)
    case Lazy(evaluate) =>
      if c.isSet then (c, c.value)
      else (Cell(true, evaluate(), c.evaluations + 1), evaluate())
  }

  /** `set(value)`: a lazy holder stores `v`; on a static holder it does nothing. */
  function SetStep<V>(src: Source<V>, c: Cell<V>, v: V): Cell<V>
  {
    if src.Lazy? then Cell(true, v, c.evaluations) else c
  }

  /** One call on a holder. */
  datatype Op<V> = Read | Write(v: V)

  /** Runs `ops` from state `c`: the final state and the value of every `Read`, in order. */
  function Run<V>(src: Source<V>, c: Cell<V>, ops: seq<Op<V>>): (Cell<V>, seq<V>)
    decreases |ops|
  {
    if ops == [] then (c, [])
    else match ops[0]
      case Read =>
        var (c1, v) := GetStep(src, c);
        var (c2, vs) := Run(src, c1, ops[1..]);
        (c2, [v] + vs)
      case Write(v) => Run(src, SetStep(src, c, v), ops[1..])
  }

  /** No `Write` in `ops`. */
  predicate ReadsOnly<V>(ops: seq<Op<V>>)
  {
    forall i :: 0 <= i < |ops| ==> ops[i].Read?
  }

  /** Whatever calls are made, a holder runs its factory at most once. */
  lemma {:induction false} FactoryRunsAtMostOnce<V>(src: Source<V>, c: Cell<V>, ops: seq<Op<V>>)
    requires AtMostOnce(c)
    ensures AtMostOnce(Run(src, c, ops).0)
    ensures Run(src, c, ops).0.evaluations >= c.evaluations
    decreases |ops|
  {
    if ops != [] {
      match ops[0]
      case Read => FactoryRunsAtMostOnce(src, GetStep(src, c).0, ops[1..]);
      case Write(v) => FactoryRunsAtMostOnce(src, SetStep(src, c, v), ops[1..]);
    }
  }

  /**
   * Once a value is stored, reads return it and run no factory, until the
   * next `Write`.
   */
  lemma {:induction false} StoredValueIsStable<V>(src: Source<V>, c: Cell<V>, ops: seq<Op<V>>)
    requires src.Lazy? && c.isSet && ReadsOnly(ops)
    ensures Run(src, c, ops).0 == c
    ensures forall i :: 0 <= i < |Run(src, c, ops).1| ==> Run(src, c, ops).1[i] == c.value
    decreases |ops|
  {
    if ops != [] {
      assert ops[0].Read?;
      StoredValueIsStable(src, c, ops[1..]);
    }
  }

  /**
   * On a lazy holder never set, the first read runs the factory once and
   * every read returns its result; later reads run it no more.
   */
  lemma LazyReadsAgree<V>(evaluate: () -> V, initial: V, ops: seq<Op<V>>)
    requires ReadsOnly(ops) && |ops| > 0
    ensures Run(Lazy(evaluate), Fresh(initial), ops).0 == Cell(true, evaluate(), 1)
    ensures forall i :: 0 <= i < |Run(Lazy(evaluate), Fresh(initial), ops).1| ==>
      Run(Lazy(evaluate), Fresh(initial), ops).1[i] == evaluate()
  {
    var src := Lazy(evaluate);
    var c1 := Cell(true, evaluate(), 1);
    assert ops[0].Read?;
    StoredValueIsStable(src, c1, ops[1..]);
  }

  /**
   * After `set(v)` on a lazy holder, every read returns `v` and the factory
   * is not run, whether or not it ran before.
   */
  lemma SetOverrides<V>(evaluate: () -> V, c: Cell<V>, v: V, ops: seq<Op<V>>)
    requires ReadsOnly(ops)
    ensures Run(Lazy(evaluate), c, [Write(v)] + ops).0 == Cell(true, v, c.evaluations)
    ensures forall i :: 0 <= i < |Run(Lazy(evaluate), c, [Write(v)] + ops).1| ==>
      Run(Lazy(evaluate), c, [Write(v)] + ops).1[i] == v
  {
    assert ([Write(v)] + ops)[1..] == ops;
    StoredValueIsStable(Lazy(evaluate), Cell(true, v, c.evaluations), ops);
  }

  /** A static holder always reads its captured value, and `set` changes nothing. */
  lemma {:induction false} StaticIsConstant<V>(v: V, c: Cell<V>, ops: seq<Op<V>>)
    ensures Run(Static(v), c, ops).0 == c
    ensures forall i :: 0 <= i < |Run(Static(v), c, ops).1| ==> Run(Static(v), c, ops).1[i] == v
    decreases |ops|
  {
    if ops != [] {
      StaticIsConstant(v, c, ops[1..]);
    }
  }

  /** `toString()`: `"{" + obj + "}"` for a non-null value, null otherwise. */
  function Braced<T>(obj: Option<T>, render: T -> string): (r: Option<string>)
    ensures obj.None? <==> r.None?
    ensures obj.Some? ==> |r.value| >= 2 && r.value[0] == '{' && r.value[|r.value| - 1] == '}' && r.value[1..|r.value| - 1] == render(obj.value)
  {
    match obj
    case Some(x) => Some("{" + render(x) + "}")
    case None => None
  }

  /** `Integer.toString`: decimal digits, with a leading '-' when negative. */
  function Decimal(n: int): string
  {
    if n < 0 then "-" + Digits(-n) else Digits(n)
  }

  function Digits(n: nat): string
    decreases n
  {
    var d := ['0' + (n % 10) as char];
    if n < 10 then d else Digits(n / 10) + d
  }

  /** `Holder<E>` with its `staticHolder` and `LazyHolder` variants; a null value is `None`. */
  class Holder<T> {
    const source: Source<Option<T>>
    var isSet: bool
    var value: Option<T>
    ghost var evaluations: nat

    ghost function State(): Cell<Option<T>>
      reads this
    {
      Cell(isSet, value, evaluations)
    }

    ghost predicate Valid()
      reads this
    {
      AtMostOnce(State()) && (source.Static? ==> !isSet && evaluations == 0)
    }

    /** `staticHolder(value)`. */
    constructor StaticHolder(v: Option<T>)
      ensures Valid() && source == Static(v) && State() == Fresh(None)
    {
      source := Static(v);
      isSet, value, evaluations := false, None, 0;
    }

    /** `lazyHolder(factory)`. */
    constructor LazyHolder(evaluate: () -> Option<T>)
      ensures Valid() && source == Lazy(evaluate) && State() == Fresh(None)
    {
      source := Lazy(evaluate);
      isSet, value, evaluations := false, None, 0;
    }

    /** `get()`. */
    method Get() returns (r: Option<T>)
      requires Valid()
      modifies this
      ensures Valid()
      ensures (State(), r) == GetStep(source, old(State()))
    {
      match source
      case Static(v) =>
        r := v;
      case Lazy(evaluate) =>
        if !isSet {
          value := evaluate();
          isSet := true;
          evaluations := evaluations + 1;
        }
        r := value;
    }

    /** `set(value)`. */
    method Set(v: Option<T>)
      requires Valid()
      modifies this
      ensures Valid()
      ensures State() == SetStep(source, old(State()), v)
    {
      if source.Lazy? {
        value := v;
        isSet := true;
      }
    }

    /** `toString()`, reading the value through `get()`. */
    method ToString(render: T -> string) returns (r: Option<string>)
      requires Valid()
      modifies this
      ensures Valid()
      ensures State() == GetStep(source, old(State())).0
      ensures r == Braced(GetStep(source, old(State())).1, render)
    {
      var obj := Get();
      r := Braced(obj, render);
    }
  }

  /** `IntHolder` with its `staticIntHolder` and `LazyIntHolder` variants. */
  class IntHolder {
    const source: Source<Int32>
    var isSet: bool
    var value: Int32
    ghost var evaluations: nat

    ghost function State(): Cell<Int32>
      reads this
    {
      Cell(isSet, value, evaluations)
    }

    ghost predicate Valid()
      reads this
    {
      AtMostOnce(State()) && (source.Static? ==> !isSet && evaluations == 0)
    }

    /** `staticIntHolder(value)`. */
    constructor StaticIntHolder(v: Int32)
      ensures Valid() && source == Static(v) && State() == Fresh(0)
    {
      source := Static(v);
      isSet, value, evaluations := false, 0, 0;
    }

    /** `lazyIntHolder(factory)`. */
    constructor LazyIntHolder(evaluate: () -> Int32)
      ensures Valid() && source == Lazy(evaluate) && State() == Fresh(0)
    {
      source := Lazy(evaluate);
      isSet, value, evaluations := false, 0, 0;
    }

    /** `getInt()`. */
    method GetInt() returns (r: Int32)
      requires Valid()
      modifies this
      ensures Valid()
      ensures (State(), r) == GetStep(source, old(State()))
    {
      match source
      case Static(v) =>
        r := v;
      case Lazy(evaluate) =>
        if !isSet {
          value := evaluate();
          isSet := true;
          evaluations := evaluations + 1;
        }
        r := value;
    }

    /** `get()`: `getInt()` boxed, so never null. */
    method Get() returns (r: Option<Int32>)
      requires Valid()
      modifies this
      ensures Valid()
      ensures State() == GetStep(source, old(State())).0
      ensures r == Some(GetStep(source, old(State())).1)
    {
      var i := GetInt();
      r := Some(i);
    }

    /** `setInt(value)`. */
    method SetInt(v: Int32)
      requires Valid()
      modifies this
      ensures Valid()
      ensures State() == SetStep(source, old(State()), v)
    {
      if source.Lazy? {
        value := v;
        isSet := true;
      }
    }

    /** `set(Integer value)`: delegates to `setInt`. */
    method Set(v: Int32)
      requires Valid()
      modifies this
      ensures Valid()
      ensures State() == SetStep(source, old(State()), v)
    {
      SetInt(v);
    }

    /** `toString()`: the decimal value in braces, never null. */
    method ToString() returns (r: Option<string>)
      requires Valid()
      modifies this
      ensures Valid()
      ensures State() == GetStep(source, old(State())).0
      ensures r == Braced(Some(GetStep(source, old(State())).1), Decimal)
    {
      var obj := Get();
      r := Braced(obj, Decimal);
    }
  }
}
