/** The normalized websocket surface that tools/contracts/protocol_compat.py compares, and what it means:
    which JSON values a field, a record, a request or a response describes. */
module CompatModel {
  import opened Wrappers

  datatype Side = Request | Response

  /** A normalized field. As in the normalized dictionaries, an absent key is the empty value:
      `""` for `items` and `model`, `{}` for the enumerations, an empty record, `None`, or `[]`. */
  datatype Field = Field(
    types: set<string>,
    required: bool,
    enum: set<string>,
    itemEnum: set<string>,
    items: string,
    model: string,
    fields: Fields,
    values: Option<Field>,
    element: Option<Field>,
    oneOf: seq<Field>)

  datatype Fields = Fields(byName: map<string, Field>)

  const NO_FIELDS := Fields(map[])

  type Models = map<string, Fields>

  datatype Variant = Variant(payload: Fields, response: Fields)

  datatype Command = Command(
    input: string,
    payload: Fields,
    response: Fields,
    responseModel: string,
    variants: map<string, Variant>)

  datatype Surface = Surface(
    commands: map<string, Command>,
    models: Models,
    request: Fields,
    response: Fields,
    errorFrame: Fields,
    errorCodes: set<string>,
    capabilities: set<string>)

  // ---- values ------------------------------------------------------------------------------------------------

  datatype Json =
    | Null
    | Bool(b: bool)
    | Integer(i: int)
    | Decimal(r: real)
    | Str(s: string)
    | Arr(elems: seq<Json>)
    | Obj(members: map<string, Json>)

  predicate HasType(v: Json, t: string) {
    match v
    case Null => t == "null"
    case Bool(_) => t == "boolean"
    case Integer(_) => t == "integer" || t == "number"
    case Decimal(_) => t == "number"
    case Str(_) => t == "string"
    case Arr(_) => t == "array"
    case Obj(_) => t == "object"
  }

  /** The members of a named model; a name nobody declares has none. */
  function Declared(models: Models, name: string): Fields {
    if name in models then models[name] else NO_FIELDS
  }

  /** What a field says about a value. A request is read strictly: enumerations bind, and an object holds declared
      members only. A response is read leniently: clients ignore members and enumeration values they do not know. */
  ghost predicate Conforms(v: Json, f: Field, models: Models, side: Side)
    decreases v, 3, f
  {
    && (exists t :: t in f.types && HasType(v, t))
    && (side.Request? && v.Str? && f.enum != {} ==> v.s in f.enum)
    && (v.Obj? ==> Shaped(v, f, models, side))
    && (v.Obj? && f.values.Some? ==>
      forall k :: k in v.members ==> Conforms(v.members[k], f.values.value, models, side))
    && (v.Arr? ==> forall i :: 0 <= i < |v.elems| ==> ElementConforms(v.elems[i], f, models, side))
    && (f.oneOf != [] ==> exists i :: 0 <= i < |f.oneOf| && Conforms(v, f.oneOf[i], models, side))
  }

  ghost predicate ElementConforms(e: Json, f: Field, models: Models, side: Side)
    decreases e, 4, f
  {
    && (f.items != "" ==> HasType(e, f.items))
    && (side.Request? && e.Str? && f.itemEnum != {} ==> e.s in f.itemEnum)
    && (e.Obj? ==> Shaped(e, f, models, side))
    && (f.element.Some? ==> Conforms(e, f.element.value, models, side))
  }

  /** An object (or an array's object element) has the members the field lists, or those of the model it names. */
  ghost predicate Shaped(o: Json, f: Field, models: Models, side: Side)
    requires o.Obj?
    decreases o, 2, f
  {
    && (f.fields != NO_FIELDS ==> IsRecord(o, f.fields, models, side))
    && (f.model != "" ==> IsRecord(o, Declared(models, f.model), models, side))
  }

  ghost predicate IsRecord(o: Json, fs: Fields, models: Models, side: Side)
    requires o.Obj?
    decreases o, 1, fs
  {
    && (forall n :: n in fs.byName ==>
          if n in o.members then Conforms(o.members[n], fs.byName[n], models, side) else !fs.byName[n].required)
    && (side.Request? ==> o.members.Keys <= fs.byName.Keys)
  }

  // ---- messages ----------------------------------------------------------------------------------------------

  /** One client message: the envelope frame, and the payload of a command in the plain or in a variant session mode. */
  datatype Message = Message(command: string, mode: Option<string>, frame: Json, body: Json)

  ghost predicate RequestValid(m: Message, s: Surface) {
    && m.frame.Obj? && m.body.Obj?
    && IsRecord(m.frame, s.request, s.models, Request)
    && m.command in s.commands
    && var c := s.commands[m.command];
       match m.mode
       case None =>
         IsRecord(m.body, c.payload, s.models, Request) && (c.input == "token" ==> "token" in m.frame.members)
       case Some(mode) =>
         mode in c.variants && IsRecord(m.body, c.variants[mode].payload, s.models, Request)
  }

  /** What a surface lets a server answer, which is also what a client of that surface can read. */
  ghost predicate AnswerValid(m: Message, s: Surface) {
    && m.frame.Obj? && m.body.Obj?
    && IsRecord(m.frame, s.response, s.models, Response)
    && m.command in s.commands
    && var c := s.commands[m.command];
       match m.mode
       case None =>
         && IsRecord(m.body, c.response, s.models, Response)
         && (c.responseModel != "" ==> IsRecord(m.body, Declared(s.models, c.responseModel), s.models, Response))
       case Some(mode) =>
         mode in c.variants && IsRecord(m.body, c.variants[mode].response, s.models, Response)
  }

  ghost predicate ErrorFrameValid(frame: Json, s: Surface) {
    frame.Obj? && IsRecord(frame, s.errorFrame, s.models, Response)
  }
}
