/**
 * `Emitter.Set`: copies the own properties of `props` onto the instance,
 * coercing each incoming value to the type the instance's property already has.
 *
 * The number branch of the source reads an undeclared variable; the model
 * follows the evident intent (parse the incoming value, 0 when unparseable)
 * with the JavaScript `+value` conversion abstracted as `parse`.
 * `SetAsWritten` keeps the code as it stands for comparison.
 */
module Properties {
  import opened Wrappers
  import opened Values

  /** The instance's own property bag. */
  type Bag = map<string, Value>

  /** A string-to-number conversion standing for `isNaN(+v) ? 0 : +v` (`None` is NaN). */
  type Parser = Value -> Option<int>

  /** The value stored for a property whose current value is `current` (`None`: no own property). */
  function Coerce(current: Option<Value>, incoming: Value, parse: Parser): Value {
    match current
    case Some(Number(_)) => Number(parse(incoming).GetOr(0))
    case Some(Boolean(_)) => Boolean(incoming == Text("true") || incoming == Text("1"))
    case _ => incoming
  }

  function Lookup(bag: Bag, key: string): Option<Value> {
    if key in bag then Some(bag[key]) else None
  }

  /** The keys of `props` that `Set` assigns: those whose value is not `undefined`. */
  function Assigned(props: Bag): set<string> {
    set k | k in props && props[k] != Undefined
  }

  /**
   * `Set(props)`; `None` stands for a falsy `props` (absent, null, false, 0, '').
   * Each assigned key is written once and no key is read after another is written,
   * so the order of the `for ... in` loop does not matter.
   */
  function Set(inst: Bag, props: Option<Bag>, parse: Parser): (r: Bag)
    ensures props.None? ==> r == inst
    ensures props.Some? ==> r.Keys == inst.Keys + Assigned(props.value)
    ensures props.Some? ==> forall k | k in inst && k !in Assigned(props.value) :: r[k] == inst[k]
    ensures props.Some? ==> forall k | k in Assigned(props.value) ::
      r[k] == Coerce(Lookup(inst, k), props.value[k], parse)
  {
    match props
    case None => inst
    case Some(p) =>
      map k | k in inst.Keys + Assigned(p) ::
        if k in Assigned(p) then Coerce(Lookup(inst, k), p[k], parse) else inst[k]
  }

  /** The code as written: the number branch reads the undeclared `param` and throws. */
  function SetAsWritten(inst: Bag, props: Option<Bag>, parse: Parser): (r: Result<Bag, ScriptError>)
    ensures r.Success? ==> r.value == Set(inst, props, parse)
    ensures r.Failure? <==> props.Some? && exists k :: k in Assigned(props.value) && k in inst && inst[k].Number?
    ensures r.Failure? ==> r.error == ReferenceError
  {
    match props
    case None => Success(inst)
    case Some(p) =>
      if exists k :: k in Assigned(p) && k in inst && inst[k].Number? then Failure(ReferenceError)
      else Success(Set(inst, props, parse))
  }

  /** A property that already holds a boolean becomes `true` exactly for the strings "true" and "1". */
  lemma BooleanCoercion(inst: Bag, props: Bag, parse: Parser, k: string)
    requires k in inst && inst[k].Boolean? && k in Assigned(props)
    ensures Set(inst, Some(props), parse)[k] == Boolean(props[k] == Text("true") || props[k] == Text("1"))
  {
  }

  /** Props made only of strings (say, attribute values) give the same bag when applied twice. */
  lemma SetTextIdempotent(inst: Bag, props: Bag, parse: Parser)
    requires forall k | k in props :: props[k].Text?
    ensures Set(Set(inst, Some(props), parse), Some(props), parse) == Set(inst, Some(props), parse)
  {
    var once := Set(inst, Some(props), parse);
    var twice := Set(once, Some(props), parse);
    forall k | k in twice.Keys
      ensures twice[k] == once[k]
    {
      if k in Assigned(props) {
        assert props[k].Text?;
        match Lookup(inst, k)
        case Some(Number(_)) =>
        case Some(Boolean(_)) =>
        case _ =>
          assert once[k] == props[k];
      }
    }
    assert twice.Keys == once.Keys;
  }

  /**
   * A boolean assigned to a fresh key is stored as is, but a second identical
   * `Set` coerces it against the now-boolean property and turns `true` into `false`.
   */
  lemma BooleanNotIdempotent(inst: Bag, k: string, parse: Parser)
    requires k !in inst
    ensures Set(inst, Some(map[k := Boolean(true)]), parse)[k] == Boolean(true)
    ensures Set(Set(inst, Some(map[k := Boolean(true)]), parse), Some(map[k := Boolean(true)]), parse)[k]
      == Boolean(false)
  {
    var p := map[k := Boolean(true)];
    assert k in Assigned(p);
  }

  /** The as-written code throws on the source's own test input (`a` holds 0, incoming "1"). */
  lemma NumberBranchThrows(parse: Parser)
    ensures SetAsWritten(map["a" := Number(0)], Some(map["a" := Text("1")]), parse) == Failure(ReferenceError)
    ensures parse(Text("1")) == Some(1) ==>
      Set(map["a" := Number(0)], Some(map["a" := Text("1")]), parse)["a"] == Number(1)
  {
    var p := map["a" := Text("1")];
    assert "a" in Assigned(p);
  }
}
