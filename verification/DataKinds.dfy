/**
 * The kinds that label sockets, the coercion table between them, and socket definitions
 * (packages/graph/src/data-kinds.ts and packages/graph/src/socket.ts).
 */
module DataKinds {
  import opened Wrappers

  datatype DataKind =
    | Number | String | Boolean
    | NumberArray | StringArray | BooleanArray
    | Dict | DictArray | Object | ObjectArray | Json | Any

  // JSON values; an object is a map, so key order is not part of a value.
  datatype Value =
    | Null
    | Num(n: real)
    | Str(s: string)
    | Bool(b: bool)
    | Arr(items: seq<Value>)
    | Obj(fields: map<string, Value>)

  /** Conversions performed by the JavaScript runtime itself. */
  datatype Host = Host(
    display: Value -> string,            // String(v)
    parseFloat: string -> Option<real>,  // None stands for NaN
    trimLower: string -> string,         // s.trim().toLowerCase()
    stringify: Value -> string)          // JSON.stringify(v)

  datatype GraphError =
    | CannotConnect(from: DataKind, to: DataKind)
    | CannotCoerce(from: DataKind, to: DataKind)
    | TypeFault
    | InvalidConnection
    | Cycle
    | MissingInput
    | UnknownSocket
    | NoValue
    | ValidationFailed
    | ReducerFailed(message: string)
    | InvalidId
    | UnknownReducer
    | DefaultFault
    | UnknownNode
    | DuplicateId
    | UnknownCommand
    | RevisionConflict
    | EmptyIdentity
    | UnknownEntity
    | KindChanged
    | InvalidField

  // ----- coercion table ---------------------------------------------------

  datatype Conversion = Display | NonZero | ParseNumber | ReadBoolean | ZeroOne

  /** One entry of the table: a conversion, applied to the value or to each array element. */
  datatype Rule = Whole(c: Conversion) | Each(c: Conversion)

  function RuleFor(from: DataKind, to: DataKind): Option<Rule> {
    match (from, to)
    case (Number, String) => Some(Whole(Display))
    case (Number, Boolean) => Some(Whole(NonZero))
    case (String, Number) => Some(Whole(ParseNumber))
    case (String, Boolean) => Some(Whole(ReadBoolean))
    case (Boolean, Number) => Some(Whole(ZeroOne))
    case (Boolean, String) => Some(Whole(Display))
    case (NumberArray, StringArray) => Some(Each(Display))
    case (NumberArray, BooleanArray) => Some(Each(NonZero))
    case (StringArray, NumberArray) => Some(Each(ParseNumber))
    case (StringArray, BooleanArray) => Some(Each(ReadBoolean))
    case (BooleanArray, NumberArray) => Some(Each(ZeroOne))
    case (BooleanArray, StringArray) => Some(Each(Display))
    case _ => None
  }

  predicate Truthy(v: Value) {
    match v
    case Null => false
    case Num(n) => n != 0.0
    case Str(s) => s != ""
    case Bool(b) => b
    case _ => true
  }

  /** `value.trim()` throws on anything but a string; the other conversions are total. */
  function Convert(h: Host, c: Conversion, v: Value): Result<Value, GraphError> {
    match c
    case Display => Success(Str(h.display(v)))
    case NonZero => Success(Bool(v != Num(0.0)))
    case ParseNumber =>
      var parsed := h.parseFloat(if v.Str? then v.s else h.display(v));
      Success(Num(if parsed.Some? then parsed.value else 0.0))
    case ReadBoolean =>
      if v.Str? then
        var normalized := h.trimLower(v.s);
        Success(Bool(|normalized| > 0 && normalized != "false"))
      else
        Failure(TypeFault)
    case ZeroOne => Success(Num(if Truthy(v) then 1.0 else 0.0))
  }

  function ConvertAll(h: Host, c: Conversion, items: seq<Value>): Result<seq<Value>, GraphError> {
    if items == [] then Success([])
    else
      var first :- Convert(h, c, items[0]);
      var rest :- ConvertAll(h, c, items[1..]);
      Success([first] + rest)
  }

  function ApplyRule(h: Host, r: Rule, v: Value): Result<Value, GraphError> {
    match r
    case Whole(c) => Convert(h, c, v)
    case Each(c) =>
      if !v.Arr? then Failure(TypeFault)
      else
        var items :- ConvertAll(h, c, v.items);
        Success(Arr(items))
  }

  predicate CanCoerce(from: DataKind, to: DataKind) {
    if from == to || to == Any || from == Any then true
    else if to == Json then true
    else if from == Json then to == String
    else RuleFor(from, to).Some?
  }

  function Coerce(h: Host, v: Value, from: DataKind, to: DataKind): Result<Value, GraphError> {
    if from == to || to == Any || from == Any then Success(v)
    else if to == Json then Success(v)
    else if from == Json && to == String then Success(Str(h.stringify(v)))
    else
      var rule := RuleFor(from, to);
      if rule.None? then Failure(CannotCoerce(from, to)) else ApplyRule(h, rule.value, v)
  }

  /** JavaScript's `typeof`, on JSON values. */
  datatype TypeOf = TNumber | TString | TBoolean | TObject

  function TypeOfValue(v: Value): TypeOf {
    match v
    case Num(_) => TNumber
    case Str(_) => TString
    case Bool(_) => TBoolean
    case _ => TObject
  }

  function InferKind(v: Value): DataKind {
    match v
    case Null => Any
    case Num(_) => Number
    case Str(_) => String
    case Bool(_) => Boolean
    case Obj(_) => Object
    case Arr(items) =>
      if items == [] then Any
      else
        var t := TypeOfValue(items[0]);
        if forall i | 0 <= i < |items| :: TypeOfValue(items[i]) == t then
          match t
          case TNumber => NumberArray
          case TString => StringArray
          case TBoolean => BooleanArray
          case TObject => ObjectArray
        else Object
  }

  // ----- sockets ----------------------------------------------------------

  datatype SocketDef = SocketDef(
    name: string, kind: DataKind, required: bool, multiple: bool,
    accepts: Option<seq<DataKind>>, defaultValue: Option<Value>)

  predicate SocketAcceptsKind(s: SocketDef, sourceKind: DataKind) {
    if s.accepts.Some? then sourceKind in s.accepts.value else CanCoerce(sourceKind, s.kind)
  }

  function NormalizeSocketValue(h: Host, s: SocketDef, v: Value, sourceKind: DataKind): Result<Value, GraphError> {
    if !SocketAcceptsKind(s, sourceKind) then Failure(CannotConnect(sourceKind, s.kind))
    else if sourceKind == s.kind || s.kind == Any || (s.accepts.Some? && sourceKind in s.accepts.value) then Success(v)
    else Coerce(h, v, sourceKind, s.kind)
  }

  // ----- agreement of the three tables -----------------------------------

  /** Whether a runtime value really is of the kind its socket declares. */
  ghost predicate HasKind(v: Value, k: DataKind) {
    match k
    case Number => v.Num?
    case String => v.Str?
    case Boolean => v.Bool?
    case NumberArray => v.Arr? && forall i | 0 <= i < |v.items| :: v.items[i].Num?
    case StringArray => v.Arr? && forall i | 0 <= i < |v.items| :: v.items[i].Str?
    case BooleanArray => v.Arr? && forall i | 0 <= i < |v.items| :: v.items[i].Bool?
    case _ => true
  }

  /** The shape of the values of which a kind is inferred; kinds that are never inferred have none. */
  ghost predicate HasShape(v: Value, k: DataKind) {
    match k
    case Number => v.Num?
    case String => v.Str?
    case Boolean => v.Bool?
    case NumberArray => AllOf(v, TNumber)
    case StringArray => AllOf(v, TString)
    case BooleanArray => AllOf(v, TBoolean)
    case ObjectArray => AllOf(v, TObject)
    case Object => v.Obj? || (v.Arr? && v.items != [] && forall t :: !AllOf(v, t))
    case Any => v.Null? || v == Arr([])
    case _ => false
  }

  /** A non-empty array whose elements are all of one JavaScript type. */
  ghost predicate AllOf(v: Value, t: TypeOf) {
    v.Arr? && v.items != [] && forall i | 0 <= i < |v.items| :: TypeOfValue(v.items[i]) == t
  }

  lemma FirstDecides(v: Value, t: TypeOf)
    requires AllOf(v, t)
    ensures t == TypeOfValue(v.items[0])
  {
  }

  /** A kind is inferred of a value if and only if the value has its shape, and then it really is of that kind. */
  lemma InferredKindFits(v: Value, k: DataKind)
    ensures InferKind(v) == k <==> HasShape(v, k)
    ensures HasKind(v, InferKind(v))
  {
    if v.Arr? && v.items != [] {
      var t := TypeOfValue(v.items[0]);
      if forall i | 0 <= i < |v.items| :: TypeOfValue(v.items[i]) == t {
        assert AllOf(v, t);
        forall u | AllOf(v, u) ensures u == t {
          FirstDecides(v, u);
        }
      } else {
        forall u ensures !AllOf(v, u) {
          if AllOf(v, u) {
            FirstDecides(v, u);
          }
        }
      }
    }
  }

  lemma {:induction false} ConvertAllTotal(h: Host, c: Conversion, items: seq<Value>)
    requires c == ReadBoolean ==> forall i | 0 <= i < |items| :: items[i].Str?
    ensures ConvertAll(h, c, items).Success?
    ensures |ConvertAll(h, c, items).value| == |items|
  {
    if items != [] {
      ConvertAllTotal(h, c, items[1..]);
    }
  }

  /**
   * `canCoerce` and `coerce` agree: on a value of its declared kind, coercion fails exactly
   * when the check refuses the pair of kinds.
   */
  lemma CoerceAgreesWithCheck(h: Host, v: Value, from: DataKind, to: DataKind)
    requires HasKind(v, from)
    ensures Coerce(h, v, from, to).Success? <==> CanCoerce(from, to)
  {
    var rule := RuleFor(from, to);
    if rule.Some? && rule.value.Each? && v.Arr? {
      ConvertAllTotal(h, rule.value.c, v.items);
    }
  }

  /** A default is normalised without error exactly when its inferred kind is accepted. */
  lemma AcceptedDefaultsNormalize(h: Host, s: SocketDef, v: Value)
    ensures NormalizeSocketValue(h, s, v, InferKind(v)).Success? <==> SocketAcceptsKind(s, InferKind(v))
  {
    InferredKindFits(v, InferKind(v));
    CoerceAgreesWithCheck(h, v, InferKind(v), s.kind);
  }

  /** What an edge delivers: a value of the source's declared kind never fails a connection the graph allowed. */
  lemma AllowedConnectionsDeliver(h: Host, s: SocketDef, v: Value, sourceKind: DataKind)
    requires SocketAcceptsKind(s, sourceKind) && HasKind(v, sourceKind)
    ensures NormalizeSocketValue(h, s, v, sourceKind).Success?
  {
    CoerceAgreesWithCheck(h, v, sourceKind, s.kind);
  }

  /**
   * Coercion delivers what its target kind promises: the result has the target kind, so a
   * second hop along an allowed connection cannot fail either.
   */
  lemma CoercedValueFits(h: Host, v: Value, from: DataKind, to: DataKind)
    requires RuleFor(from, to).Some? && Coerce(h, v, from, to).Success? && from != to
    ensures HasKind(Coerce(h, v, from, to).value, to)
  {
    var rule := RuleFor(from, to).value;
    if rule.Each? {
      ConvertAllKinds(h, rule.c, v.items);
    }
  }

  /** The kind an elementwise conversion produces from array elements. */
  function ConvertedKind(c: Conversion): DataKind {
    match c
    case Display => String
    case NonZero => Boolean
    case ParseNumber => Number
    case ReadBoolean => Boolean
    case ZeroOne => Number
  }

  lemma {:induction false} ConvertAllKinds(h: Host, c: Conversion, items: seq<Value>)
    requires ConvertAll(h, c, items).Success?
    ensures |ConvertAll(h, c, items).value| == |items|
    ensures forall i | 0 <= i < |items| :: HasKind(ConvertAll(h, c, items).value[i], ConvertedKind(c))
  {
    if items != [] {
      ConvertAllKinds(h, c, items[1..]);
    }
  }
}
