/** The types and values that HIR and MIR share. */
module Values {

  datatype Option<+T> = None | Some(value: T)

  datatype Field = Field(name: nat, ty: Ty)

  datatype Ty =
    | TU256
    | TBool
    | TMemPtr
    | TType
    | TVoid
    | TNever
    | TStruct(id: nat, fields: seq<Field>)

  datatype Value =
    | Num(n: nat)
    | Ptr(n: nat)
    | Boolean(b: bool)
    | TypeVal(ty: Ty)
    | VoidVal
    | Struct(sty: Ty, fields: seq<Value>)

  /** The word size of the machine: 2^256. */
  const WORD: nat := 0x1_0000000000000000_0000000000000000_0000000000000000_0000000000000000

  /** The largest index and the largest count the compiler's 32-bit integers hold. */
  const U32_MAX: nat := 0xFFFF_FFFF

  function TypeOf(v: Value): Ty {
    match v
    case Num(_) => TU256
    case Ptr(_) => TMemPtr
    case Boolean(_) => TBool
    case TypeVal(_) => TType
    case VoidVal => TVoid
    case Struct(ty, _) => ty
  }

  predicate DistinctNames(fields: seq<Field>) {
    forall i, j | 0 <= i < j < |fields| :: fields[i].name != fields[j].name
  }

  /**
   * A value the interner can hold: words fit the machine word, compounds agree with their definition, and no
   * struct type has two fields of one name.
   */
  predicate WfValue(v: Value) {
    match v
    case Num(n) => n < WORD
    case Ptr(n) => n < WORD
    case Boolean(_) => true
    case TypeVal(ty) => ty.TStruct? ==> DistinctNames(ty.fields)
    case VoidVal => true
    case Struct(ty, fs) =>
      && ty.TStruct?
      && |fs| == |ty.fields|
      && forall i | 0 <= i < |fs| :: WfValue(fs[i]) && TypeOf(fs[i]) == ty.fields[i].ty
  }

  /** Memory pointers exist at run time only. */
  predicate NoPointer(v: Value) {
    match v
    case Ptr(_) => false
    case Struct(_, fs) => forall i | 0 <= i < |fs| :: NoPointer(fs[i])
    case _ => true
  }

  predicate ComptimeOnly(ty: Ty) {
    match ty
    case TType => true
    case TStruct(_, fs) => exists i | 0 <= i < |fs| :: ComptimeOnly(fs[i].ty)
    case _ => false
  }

  /** The type found by going from field to field. */
  function AtPath(ty: Ty, path: seq<nat>): Option<Ty>
    decreases |path|
  {
    if path == [] then Some(ty)
    else
      match ty
      case TStruct(_, fs) => if path[0] < |fs| then AtPath(fs[path[0]].ty, path[1..]) else None
      case _ => None
  }

  /** Types exist at compile time only if the type of types is somewhere inside them. */
  lemma {:induction false} ComptimeOnlyIff(ty: Ty)
    ensures ComptimeOnly(ty) <==> exists path :: AtPath(ty, path) == Some(TType)
    decreases ty
  {
    if ty == TType {
      assert AtPath(ty, []) == Some(TType);
    } else if ty.TStruct? {
      forall i | 0 <= i < |ty.fields|
        ensures ComptimeOnly(ty.fields[i].ty) <==> exists path :: AtPath(ty.fields[i].ty, path) == Some(TType)
      {
        ComptimeOnlyIff(ty.fields[i].ty);
      }
      if ComptimeOnly(ty) {
        var i :| 0 <= i < |ty.fields| && ComptimeOnly(ty.fields[i].ty);
        var path :| AtPath(ty.fields[i].ty, path) == Some(TType);
        assert ([i] + path)[1..] == path;
        assert AtPath(ty, [i] + path) == Some(TType);
        assert exists path :: AtPath(ty, path) == Some(TType);
      }
      assert ComptimeOnly(ty) ==> exists path :: AtPath(ty, path) == Some(TType);
      forall path | AtPath(ty, path) == Some(TType) ensures ComptimeOnly(ty) {
        assert path != [] && path[0] < |ty.fields|;
        assert AtPath(ty.fields[path[0]].ty, path[1..]) == Some(TType);
        assert ComptimeOnly(ty.fields[path[0]].ty);
      }
    } else {
      forall path ensures AtPath(ty, path) != Some(TType) {
        assert path == [] ==> AtPath(ty, path) == Some(ty);
      }
    }
  }

  predicate Assignable(actual: Ty, expected: Ty) {
    actual == expected || actual == TNever
  }

  /** A scalar seen as a machine word; booleans are 0 and 1. */
  function AsWord(v: Value): Option<nat> {
    match v
    case Num(n) => Some(n)
    case Ptr(n) => Some(n)
    case Boolean(b) => Some(if b then 1 else 0)
    case _ => None
  }

  /** A machine word seen at a scalar type. */
  function FromWord(ty: Ty, w: nat): Option<Value> {
    match ty
    case TU256 => Some(Num(w % WORD))
    case TMemPtr => Some(Ptr(w % WORD))
    case TBool => Some(Boolean(w != 0))
    case TVoid => Some(VoidVal)
    case _ => None
  }

  /** The index of the first field called `name`, as a search from the left finds it. */
  function FieldIndex(fields: seq<Field>, name: nat): (r: Option<nat>)
    ensures r.Some? ==> r.value < |fields| && fields[r.value].name == name
                        && forall i | 0 <= i < r.value :: fields[i].name != name
    ensures r.None? ==> forall i | 0 <= i < |fields| :: fields[i].name != name
  {
    if fields == [] then None
    else if fields[0].name == name then Some(0)
    else
      match FieldIndex(fields[1..], name)
      case None => None
      case Some(i) => Some(i + 1)
  }
}
