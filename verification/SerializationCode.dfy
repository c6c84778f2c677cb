/** The serialization code generator: it turns class schemas into matching writers and readers. The
    emitted C++ is modelled as lists of instructions, with their meaning over a stream of fields. */
module SerializationCode {
  import opened Common

  /** A member value, opaque but for the default value of its type. */
  datatype Value = DefaultOf(typ: string) | Other(id: nat)

  // ----- schemas --------------------------------------------------------------------------------------------

  /** A member as the schema file writes it. `default` is None if it is absent or null. */
  datatype MemberEntry = MemberEntry(id: nat, name: string, typ: string, default: Option<Value>, deleted: bool,
                                     version: Option<nat>)

  datatype MemberVariable = MemberVariable(id: nat, name: string, typ: string, hasDefault: bool, default: Option<Value>,
                                           deleted: bool, version: nat)

  predicate Contains(text: string, part: string) {
    exists i {:trigger text[i..]} :: 0 <= i <= |text| && part <= text[i..]
  }

  predicate IsContainer(typ: string) {
    Contains(typ, "<") && !Contains(typ, "CSVOption")
  }

  predicate IsPointer(typ: string) {
    (typ != "" && typ[|typ| - 1] == '*') || "shared_ptr<" <= typ
  }

  predicate IsZeroable(typ: string) {
    typ in ["bool", "int8_t", "int16_t", "int32_t", "int64_t", "uint8_t", "uint16_t", "uint32_t", "uint64_t", "idx_t",
            "size_t", "int"]
  }

  predicate HasDefaultByDefault(typ: string) {
    if IsPointer(typ) then true
    else if IsContainer(typ) then !Contains(typ, "IndexVector") && !Contains(typ, "CSVOption")
    else typ == "string" || IsZeroable(typ)
  }

  /** Members of storage version 1 are in every stream. */
  const FIRST_VERSION := 1

  function MakeMember(entry: MemberEntry): (m: MemberVariable)
    ensures m.default.Some? ==> m.hasDefault
  {
    MemberVariable(entry.id, entry.name, entry.typ, entry.default.Some? || HasDefaultByDefault(entry.typ), entry.default,
                   entry.deleted, if entry.version.Some? then entry.version.value else FIRST_VERSION)
  }

  /** A class with an enum member is read by dispatching on it to a child class; the other classes are
      constructed. `fixed` is what the C++ constructor of such a class stores on its own account, which
      the schema does not say. */
  datatype Class =
    | BaseClass(name: string, members: seq<MemberVariable>, enumValue: string, setParameters: seq<MemberVariable>,
                children: seq<Child>)
    | DataClass(name: string, members: seq<MemberVariable>, constructorEntries: seq<string>, setParameters: seq<MemberVariable>,
                fixed: map<string, Value>)

  datatype Child = Child(enumEntry: Value, cls: Class)

  datatype Object = Object(className: string, fields: map<string, Value>)

  // ----- the emitted code -----------------------------------------------------------------------------------

  datatype WriteHow = Always | UnlessTypeDefault(typ: string) | UnlessEqual(default: Value) | Never

  /** A write instruction, under a version check if `gate` is given. */
  datatype WriteOp = WriteOp(id: nat, name: string, how: WriteHow, gate: Option<nat>)

  datatype ReadHow = Required | OrTypeDefault(typ: string) | OrDefault(default: Value) | Discard

  /** Where a value read goes to: a local variable or a member of the result. */
  datatype Target = Local | Member

  datatype Argument =
    | FromLocal(name: string)
    | FromParameter(name: string, typ: string)
    | FromContext(typ: string, isOptional: bool)

  datatype Case = Case(enumEntry: Value, className: string)

  datatype ReadOp =
    | Read(id: nat, name: string, how: ReadHow, target: Target)
    | Construct(className: string, fixed: map<string, Value>, arguments: seq<Argument>)
    | Assign(name: string)
    | Set(typ: string, name: string)
    | Unset(typ: string)
    | Switch(name: string, cases: seq<Case>)

  function GetSerializeElement(m: MemberVariable): WriteOp {
    var how :=
      if m.deleted then Never
      else if m.hasDefault then if m.default.Some? then UnlessEqual(m.default.value) else UnlessTypeDefault(m.typ)
      else Always;
    WriteOp(m.id, m.name, how, if m.version != FIRST_VERSION then Some(m.version) else None)
  }

  function GetDeserializeElement(m: MemberVariable, target: Target): ReadOp {
    var how :=
      if m.deleted then Discard
      else if m.hasDefault && m.default.None? then OrTypeDefault(m.typ)
      else if m.hasDefault then OrDefault(m.default.value)
      else Required;
    Read(m.id, m.name, how, target)
  }

  // ----- what the code does ---------------------------------------------------------------------------------

  datatype Token = Field(id: nat, value: Value) | End

  datatype Options = Options(serializeDefaults: bool, compatibility: nat)

  function Write(op: WriteOp, fields: map<string, Value>, options: Options): seq<Token>
    requires op.how != Never ==> op.name in fields
  {
    if op.how.Never? || (op.gate.Some? && !(op.gate.value <= options.compatibility)) then []
    else
      var value := fields[op.name];
      var skip :=
        match op.how
        case Always => false
        case UnlessTypeDefault(typ) => !options.serializeDefaults && value == DefaultOf(typ)
        case UnlessEqual(default) => !options.serializeDefaults && value == default
        case Never => true;
      if skip then [] else [Field(op.id, value)]
  }

  // ----- what is to be written and read ---------------------------------------------------------------------

  /** The value goes without saying: it is the explicit default, or the default of a type that has one. */
  predicate IsDefaultValue(entry: MemberEntry, value: Value) {
    if entry.default.Some? then value == entry.default.value
    else HasDefaultByDefault(entry.typ) && value == DefaultOf(entry.typ)
  }

  /** The member is in the stream: it is not deleted, the target version knows it, and its value must be said. */
  predicate IsWritten(entry: MemberEntry, fields: map<string, Value>, options: Options)
    requires !entry.deleted ==> entry.name in fields
  {
    && !entry.deleted
    && (entry.version.None? || entry.version.value == FIRST_VERSION || entry.version.value <= options.compatibility)
    && (options.serializeDefaults || !IsDefaultValue(entry, fields[entry.name]))
  }

  predicate HasFields(entries: seq<MemberEntry>, fields: map<string, Value>) {
    forall i :: 0 <= i < |entries| && !entries[i].deleted ==> entries[i].name in fields
  }

  /** The stream of an object whose members have these entries. */
  function Stream(entries: seq<MemberEntry>, fields: map<string, Value>, options: Options): seq<Token>
    requires HasFields(entries, fields)
  {
    if entries == [] then []
    else
      (if IsWritten(entries[0], fields, options) then [Field(entries[0].id, fields[entries[0].name])] else [])
      + Stream(entries[1..], fields, options)
  }

  function Made(entries: seq<MemberEntry>): (members: seq<MemberVariable>)
    ensures |members| == |entries| && forall i :: 0 <= i < |members| ==> members[i] == MakeMember(entries[i])
  {
    seq(|entries|, i requires 0 <= i < |entries| => MakeMember(entries[i]))
  }

  /** The write instruction of a member writes it exactly if it is in the stream. */
  lemma WriteOfMember(entry: MemberEntry, fields: map<string, Value>, options: Options)
    requires !entry.deleted ==> entry.name in fields
    ensures GetSerializeElement(MakeMember(entry)).how != Never ==> entry.name in fields
    ensures Write(GetSerializeElement(MakeMember(entry)), fields, options)
            == if IsWritten(entry, fields, options) then [Field(entry.id, fields[entry.name])] else []
  {
  }

  /** The read instruction of a member: a field with its id is taken, and thrown away if the member is deleted.
      Without it nothing is taken, a deleted member has no value, and the others have their default or none. */
  lemma ReadOfMember(entry: MemberEntry, stream: seq<Token>, target: Target)
    requires stream != []
    ensures var read := GetDeserializeElement(MakeMember(entry), target);
            && read.id == entry.id && read.name == entry.name && read.target == target
            && ReadProperty(read.id, read.how, stream)
               == if stream[0].Field? && stream[0].id == entry.id
                  then Ok((if entry.deleted then None else Some(stream[0].value), stream[1..]))
                  else if entry.deleted then Ok((None, stream))
                  else if entry.default.Some? then Ok((entry.default, stream))
                  else if HasDefaultByDefault(entry.typ) then Ok((Some(DefaultOf(entry.typ)), stream))
                  else Err("field id mismatch")
  {
  }

  predicate Writable(ops: seq<WriteOp>, fields: map<string, Value>) {
    forall i :: 0 <= i < |ops| && ops[i].how != Never ==> ops[i].name in fields
  }

  function WriteAll(ops: seq<WriteOp>, fields: map<string, Value>, options: Options): seq<Token>
    requires Writable(ops, fields)
  {
    if ops == [] then [] else Write(ops[0], fields, options) + WriteAll(ops[1..], fields, options)
  }

  /** Context values by type; the last one set is the one a constructor gets. */
  type Parameters = map<string, seq<Value>>

  datatype Reply = Reply(result: Object, stream: seq<Token>, parameters: Parameters)

  /** The deserializers of the child classes, by class name. */
  type Deserializers = (string, seq<Token>, Parameters) -> Result<Reply>

  datatype ReadState = ReadState(stream: seq<Token>, locals: map<string, Value>, result: Option<Object>, parameters: Parameters)

  function Top(parameters: Parameters, typ: string): Option<Value> {
    if typ in parameters && parameters[typ] != [] then Some(parameters[typ][|parameters[typ]| - 1]) else None
  }

  function Push(parameters: Parameters, typ: string, value: Value): Parameters {
    parameters[typ := (if typ in parameters then parameters[typ] else []) + [value]]
  }

  /** One property: its value, if it is not discarded, and the rest of the stream. */
  function ReadProperty(id: nat, how: ReadHow, stream: seq<Token>): Result<(Option<Value>, seq<Token>)> {
    if stream == [] then Err("end of data")
    else
      var present := stream[0].Field? && stream[0].id == id;
      match how
      case Required => if present then Ok((Some(stream[0].value), stream[1..])) else Err("field id mismatch")
      case OrTypeDefault(typ) => if present then Ok((Some(stream[0].value), stream[1..])) else Ok((Some(DefaultOf(typ)), stream))
      case OrDefault(default) => if present then Ok((Some(stream[0].value), stream[1..])) else Ok((Some(default), stream))
      case Discard => if present then Ok((None, stream[1..])) else Ok((None, stream))
  }

  function Store(s: ReadState, target: Target, name: string, value: Option<Value>): Result<ReadState> {
    if value.None? then Ok(s)
    else
      match target
      case Local => Ok(s.(locals := s.locals[name := value.value]))
      case Member =>
        if s.result.None? then Err("no result")
        else Ok(s.(result := Some(Object(s.result.value.className, s.result.value.fields[name := value.value]))))
  }

  /** What the constructor stores: a context argument goes somewhere the schema does not describe. */
  function Arguments(arguments: seq<Argument>, s: ReadState, fields: map<string, Value>): Result<map<string, Value>> {
    if arguments == [] then Ok(fields)
    else
      match arguments[0]
      case FromLocal(name) =>
        if name !in s.locals then Err("undeclared variable")
        else Arguments(arguments[1..], s, fields[name := s.locals[name]])
      case FromParameter(name, typ) =>
        var top := Top(s.parameters, typ);
        if top.None? then Err("no parameter of this type")
        else Arguments(arguments[1..], s, fields[name := top.value])
      case FromContext(typ, isOptional) =>
        if !isOptional && Top(s.parameters, typ).None? then Err("no parameter of this type")
        else Arguments(arguments[1..], s, fields)
  }

  function FindCase(cases: seq<Case>, value: Value): Option<string> {
    if cases == [] then None else if cases[0].enumEntry == value then Some(cases[0].className) else FindCase(cases[1..], value)
  }

  function Step(op: ReadOp, s: ReadState, call: Deserializers): Result<ReadState> {
    match op
    case Read(id, name, how, target) =>
      var r := ReadProperty(id, how, s.stream);
      if r.Err? then Err(r.message) else Store(s.(stream := r.value.1), target, name, r.value.0)
    case Construct(className, fixed, arguments) =>
      var r := Arguments(arguments, s, fixed);
      if r.Err? then Err(r.message) else Ok(s.(result := Some(Object(className, r.value))))
    case Assign(name) =>
      if name !in s.locals then Err("undeclared variable") else Store(s, Member, name, Some(s.locals[name]))
    case Set(typ, name) =>
      if name !in s.locals then Err("undeclared variable")
      else Ok(s.(parameters := Push(s.parameters, typ, s.locals[name])))
    case Unset(typ) =>
      if Top(s.parameters, typ).None? then Err("no parameter of this type")
      else Ok(s.(parameters := s.parameters[typ := s.parameters[typ][..|s.parameters[typ]| - 1]]))
    case Switch(name, cases) =>
      if name !in s.locals then Err("undeclared variable")
      else
        var found := FindCase(cases, s.locals[name]);
        if found.None? then Err("unsupported type")
        else
          var r := call(found.value, s.stream, s.parameters);
          if r.Err? then Err(r.message)
          else Ok(s.(stream := r.value.stream, parameters := r.value.parameters, result := Some(r.value.result)))
  }

  function Run(ops: seq<ReadOp>, s: ReadState, call: Deserializers): Result<ReadState> {
    if ops == [] then Ok(s)
    else
      var r := Step(ops[0], s, call);
      if r.Err? then r else Run(ops[1..], r.value, call)
  }

  lemma {:induction false} RunAppend(a: seq<ReadOp>, b: seq<ReadOp>, s: ReadState, call: Deserializers)
    ensures Run(a + b, s, call) == var r := Run(a, s, call); if r.Err? then r else Run(b, r.value, call)
  {
    if a == [] {
      assert a + b == b;
    } else {
      assert (a + b)[0] == a[0] && (a + b)[1..] == a[1..] + b;
      var r := Step(a[0], s, call);
      if r.Ok? {
        RunAppend(a[1..], b, r.value, call);
      }
    }
  }
}
