/** The generated reader undoes the generated writer: the meaning of both, and exactly when every
    member that is not deleted is restored. */
module SerializationRoundTrip {
  import opened Common
  import opened SerializationCode
  import opened SerializationGenerator

  // ----- the generated functions ----------------------------------------------------------------------------

  function FindChild(children: seq<Child>, name: string): (k: Option<nat>)
    ensures k.Some? ==> k.value < |children| && children[k.value].cls.name == name
  {
    if children == [] then None
    else if children[0].cls.name == name then Some(0)
    else
      var k := FindChild(children[1..], name);
      if k.None? then None else Some(k.value + 1)
  }

  /** The generated Deserialize of a class: dispatch calls that of a child class. */
  ghost function Deserialize(cls: Class, base: Option<Class>, stream: seq<Token>, parameters: Parameters): Result<Reply>
    decreases cls, 1
  {
    RunCode(if cls.BaseClass? then Ok(BaseCode(cls, base)) else ClassCode(cls, base), stream, parameters, Callees(cls))
  }

  ghost function Callees(cls: Class): Deserializers
    decreases cls, 0
  {
    (name, rest, ps) =>
      if cls.DataClass? then Err("no child classes")
      else
        var k := FindChild(cls.children, name);
        if k.None? then Err("no such class") else Deserialize(cls.children[k.value].cls, Some(cls), rest, ps)
  }

  function RunCode(code: Result<Code>, stream: seq<Token>, parameters: Parameters, call: Deserializers): Result<Reply> {
    if code.Err? then Err(code.message)
    else Replied(Run(code.value.deserialize, ReadState(stream, map[], None, parameters), call))
  }

  function Replied(r: Result<ReadState>): Result<Reply> {
    if r.Err? then Err(r.message)
    else if r.value.result.None? then Err("no result")
    else Ok(Reply(r.value.result.value, r.value.stream, r.value.parameters))
  }

  /** The generated Serialize of the last class of a path: it first calls the one of the base class. */
  function Serialize(chain: seq<Class>, fields: map<string, Value>, options: Options): seq<Token>
    requires forall i :: 0 <= i < |chain| ==> Writable(Writes(chain[i].members), fields)
  {
    if chain == [] then []
    else
      Serialize(chain[..|chain| - 1], fields, options) + WriteAll(Writes(chain[|chain| - 1].members), fields, options)
  }

  // ----- reading the members in order -----------------------------------------------------------------------

  /** What reading the members in order gives: their values, without the deleted ones, and the rest. */
  function ReadMembers(members: seq<MemberVariable>, stream: seq<Token>): Result<(map<string, Value>, seq<Token>)> {
    if members == [] then Ok((map[], stream))
    else
      var m := members[0];
      var first := ReadProperty(m.id, GetDeserializeElement(m, Local).how, stream);
      if first.Err? then Err(first.message)
      else
        var rest := ReadMembers(members[1..], first.value.1);
        if rest.Err? then rest
        else Ok((One(m.name, first.value.0) + rest.value.0, rest.value.1))
  }

  function One(name: string, value: Option<Value>): map<string, Value> {
    if value.None? then map[] else map[name := value.value]
  }

  lemma {:induction false} ReadMembersAppend(a: seq<MemberVariable>, b: seq<MemberVariable>, stream: seq<Token>)
    ensures ReadMembers(a + b, stream) ==
            var r := ReadMembers(a, stream);
            if r.Err? then r
            else
              var q := ReadMembers(b, r.value.1);
              if q.Err? then q else Ok((r.value.0 + q.value.0, q.value.1))
  {
    if a == [] {
      assert a + b == b;
      var q := ReadMembers(b, stream);
      if q.Ok? {
        assert map[] + q.value.0 == q.value.0;
      }
    } else {
      assert (a + b)[0] == a[0] && (a + b)[1..] == a[1..] + b;
      var first := ReadProperty(a[0].id, GetDeserializeElement(a[0], Local).how, stream);
      if first.Ok? {
        ReadMembersAppend(a[1..], b, first.value.1);
        var r := ReadMembers(a[1..], first.value.1);
        if r.Ok? {
          var q := ReadMembers(b, r.value.1);
          if q.Ok? {
            var one := One(a[0].name, first.value.0);
            assert one + (r.value.0 + q.value.0) == (one + r.value.0) + q.value.0;
          }
        }
      }
    }
  }

  predicate Live(m: MemberVariable) {
    !m.deleted
  }

  /** The names of the members that are not deleted. */
  function LiveNames(members: seq<MemberVariable>): set<string> {
    set m | m in members && Live(m) :: m.name
  }

  lemma {:induction false} ReadMembersKeys(members: seq<MemberVariable>, stream: seq<Token>)
    ensures ReadMembers(members, stream).Ok? ==> ReadMembers(members, stream).value.0.Keys == LiveNames(members)
  {
    if members != [] {
      var m := members[0];
      var first := ReadProperty(m.id, GetDeserializeElement(m, Local).how, stream);
      assert members == [m] + members[1..];
      assert LiveNames(members) == (if Live(m) then {m.name} else {}) + LiveNames(members[1..]);
      if first.Ok? {
        ReadMembersKeys(members[1..], first.value.1);
      }
    }
  }

  /** The state after values have been stored. */
  function Stored(s: ReadState, target: Target, values: map<string, Value>, rest: seq<Token>): ReadState
    requires target.Member? ==> s.result.Some?
  {
    match target
    case Local => s.(locals := s.locals + values, stream := rest)
    case Member =>
      s.(result := Some(Object(s.result.value.className, s.result.value.fields + values)), stream := rest)
  }

  lemma StepRead(m: MemberVariable, target: Target, s: ReadState, call: Deserializers)
    requires target.Member? ==> s.result.Some?
    ensures var first := ReadProperty(m.id, GetDeserializeElement(m, Local).how, s.stream);
            Step(GetDeserializeElement(m, target), s, call)
            == if first.Err? then Err(first.message) else Ok(Stored(s, target, One(m.name, first.value.0), first.value.1))
  {
    var first := ReadProperty(m.id, GetDeserializeElement(m, Local).how, s.stream);
    if first.Ok? {
      var value := first.value.0;
      assert s.locals + One(m.name, value) == if value.None? then s.locals else s.locals[m.name := value.value];
      if target.Member? {
        var fields := s.result.value.fields;
        assert fields + One(m.name, value) == if value.None? then fields else fields[m.name := value.value];
      }
    }
  }

  lemma StoredTwice(s: ReadState, target: Target, a: map<string, Value>, b: map<string, Value>, x: seq<Token>, y: seq<Token>)
    requires target.Member? ==> s.result.Some?
    ensures Stored(s, target, map[], s.stream) == s
    ensures Stored(Stored(s, target, a, x), target, b, y) == Stored(s, target, a + b, y)
  {
    assert s.locals + map[] == s.locals;
    assert s.locals + (a + b) == (s.locals + a) + b;
    if target.Member? {
      var fields := s.result.value.fields;
      assert fields + map[] == fields;
      assert fields + (a + b) == (fields + a) + b;
    }
  }

  /** Reads with the same target do what reading the members in order does. */
  lemma {:induction false} RunReads(members: seq<MemberVariable>, target: Target, s: ReadState, call: Deserializers)
    requires target.Member? ==> s.result.Some?
    ensures ReadMembers(members, s.stream).Err? ==> Run(Reads(members, target), s, call).Err?
    ensures ReadMembers(members, s.stream).Ok? ==>
              Run(Reads(members, target), s, call)
              == Ok(Stored(s, target, ReadMembers(members, s.stream).value.0, ReadMembers(members, s.stream).value.1))
  {
    if members == [] {
      StoredTwice(s, target, map[], map[], s.stream, s.stream);
    } else {
      var m, ops := members[0], Reads(members, target);
      assert ops[1..] == Reads(members[1..], target);
      var first := ReadProperty(m.id, GetDeserializeElement(m, Local).how, s.stream);
      StepRead(m, target, s, call);
      if first.Ok? {
        var one := One(m.name, first.value.0);
        var next := Stored(s, target, one, first.value.1);
        assert Run(ops, s, call) == Run(ops[1..], next, call);
        RunReads(members[1..], target, next, call);
        var rest := ReadMembers(members[1..], first.value.1);
        if rest.Ok? {
          StoredTwice(s, target, one, rest.value.0, first.value.1, rest.value.1);
        }
      }
    }
  }

  // ----- one level: the members of one class ----------------------------------------------------------------

  function DefaultOfMember(m: MemberVariable): Value {
    if m.default.Some? then m.default.value else DefaultOf(m.typ)
  }

  predicate GateOpen(m: MemberVariable, options: Options) {
    m.version == FIRST_VERSION || m.version <= options.compatibility
  }

  /** The member survives: it is written for this target version, or it has its default value. */
  predicate Kept(m: MemberVariable, fields: map<string, Value>, options: Options) {
    GateOpen(m, options) || (m.hasDefault && m.name in fields && fields[m.name] == DefaultOfMember(m))
  }

  /** A schema member: an explicit default counts as a default. */
  predicate SchemaMember(m: MemberVariable) {
    m.default.Some? ==> m.hasDefault
  }

  predicate HeadOutside(stream: seq<Token>, ids: set<nat>) {
    stream != [] && (stream[0].Field? ==> stream[0].id !in ids)
  }

  lemma {:induction false} WriteAllHead(members: seq<MemberVariable>, fields: map<string, Value>, options: Options,
                                       tail: seq<Token>, ids: set<nat>)
    requires Writable(Writes(members), fields) && HeadOutside(tail, ids) && Ids(members) !! ids
    ensures HeadOutside(WriteAll(Writes(members), fields, options) + tail, ids)
  {
    if members != [] {
      assert Writes(members)[1..] == Writes(members[1..]);
      assert members[0].id in Ids(members);
      assert Ids(members[1..]) <= Ids(members);
      WriteAllHead(members[1..], fields, options, tail, ids);
    }
  }

  /** The member is not in the stream and must be. */
  predicate IsMissing(m: MemberVariable, options: Options) {
    Live(m) && !GateOpen(m, options) && !m.hasDefault
  }

  /** Reading one member back. */
  lemma MemberReadBack(m: MemberVariable, fields: map<string, Value>, options: Options, tail: seq<Token>)
    requires SchemaMember(m) && (Live(m) ==> m.name in fields) && HeadOutside(tail, {m.id})
    ensures var r := ReadProperty(m.id, GetDeserializeElement(m, Local).how, Write(GetSerializeElement(m), fields, options) + tail);
            && (r.Err? <==> IsMissing(m, options))
            && (r.Ok? ==> r.value.1 == tail && (r.value.0.Some? <==> Live(m)))
            && (r.Ok? && Live(m) ==> (r.value.0.value == fields[m.name] <==> Kept(m, fields, options)))
  {
  }

  /** No error unless a member without a default is missing, and a member is restored iff it survives. */
  ghost predicate ReadsBack(r: Result<(map<string, Value>, seq<Token>)>, members: seq<MemberVariable>,
                            fields: map<string, Value>, options: Options, tail: seq<Token>)
    requires forall m :: m in members && Live(m) ==> m.name in fields
  {
    (r.Err? <==> exists m :: m in members && IsMissing(m, options)) &&
    (r.Ok? ==> r.value.1 == tail && r.value.0.Keys == LiveNames(members)) &&
    (r.Ok? ==> forall m :: m in members && Live(m) ==> (r.value.0[m.name] == fields[m.name] <==> Kept(m, fields, options)))
  }

  lemma LevelStep(m: MemberVariable, rest: seq<MemberVariable>, fields: map<string, Value>, options: Options, tail: seq<Token>,
                  value: Option<Value>, values: map<string, Value>)
    requires forall n :: n in [m] + rest && Live(n) ==> n.name in fields
    requires m.name !in Names(rest) && !IsMissing(m, options) && (value.Some? <==> Live(m))
    requires Live(m) ==> (value.value == fields[m.name] <==> Kept(m, fields, options))
    requires ReadsBack(Ok((values, tail)), rest, fields, options, tail)
    ensures ReadsBack(Ok((One(m.name, value) + values, tail)), [m] + rest, fields, options, tail)
  {
    var all := [m] + rest;
    assert forall n :: n in all <==> n == m || n in rest;
    assert LiveNames(all) == (if Live(m) then {m.name} else {}) + LiveNames(rest);
    assert LiveNames(rest) <= Names(rest);
  }

  lemma WriteCons(m: MemberVariable, rest: seq<MemberVariable>, fields: map<string, Value>, options: Options, tail: seq<Token>)
    requires Writable(Writes([m] + rest), fields)
    ensures Writable(Writes(rest), fields) && (GetSerializeElement(m).how != Never ==> m.name in fields)
    ensures WriteAll(Writes([m] + rest), fields, options) + tail
            == Write(GetSerializeElement(m), fields, options) + (WriteAll(Writes(rest), fields, options) + tail)
  {
    var ops := Writes([m] + rest);
    assert ops[0] == GetSerializeElement(m);
    assert ops[1..] == Writes(rest);
    forall i | 0 <= i < |rest|
      ensures Writes(rest)[i] == ops[i + 1]
    {
    }
  }

  /** First member: an error, or its value in front of the others. */
  lemma LevelCons(m: MemberVariable, rest: seq<MemberVariable>, fields: map<string, Value>, options: Options, x: seq<Token>,
                  tail: seq<Token>)
    requires SchemaMember(m) && (Live(m) ==> m.name in fields)
    requires forall n :: n in [m] + rest && Live(n) ==> n.name in fields
    requires HeadOutside(x, {m.id}) && m.name !in Names(rest)
    requires ReadsBack(ReadMembers(rest, x), rest, fields, options, tail)
    ensures ReadsBack(ReadMembers([m] + rest, Write(GetSerializeElement(m), fields, options) + x), [m] + rest, fields, options, tail)
  {
    MemberReadBack(m, fields, options, x);
    var first := ReadProperty(m.id, GetDeserializeElement(m, Local).how, Write(GetSerializeElement(m), fields, options) + x);
    var r := ReadMembers(rest, x);
    assert ([m] + rest)[1..] == rest;
    if first.Ok? && r.Ok? {
      LevelStep(m, rest, fields, options, tail, first.value.0, r.value.0);
    } else if first.Ok? {
      var n :| n in rest && IsMissing(n, options);
      assert n in [m] + rest;
    } else {
      assert m in [m] + rest;
    }
  }

  lemma {:induction false} LevelReadBack(members: seq<MemberVariable>, names: set<string>, ids: set<nat>,
                                        fields: map<string, Value>, options: Options, tail: seq<Token>)
    requires forall m :: m in members ==> SchemaMember(m) && (Live(m) ==> m.name in fields)
    requires Unseen(members, names, ids) && HeadOutside(tail, Ids(members)) && Writable(Writes(members), fields)
    ensures ReadsBack(ReadMembers(members, WriteAll(Writes(members), fields, options) + tail), members, fields, options, tail)
  {
    if members == [] {
      assert WriteAll(Writes(members), fields, options) + tail == tail;
    } else {
      var m, rest := members[0], members[1..];
      assert members == [m] + rest && Ids(rest) <= Ids(members) && m.id in Ids(members);
      FirstApart(m, rest, names, ids);
      WriteCons(m, rest, fields, options, tail);
      WriteAllHead(rest, fields, options, tail, {m.id});
      LevelReadBack(rest, names + {m.name}, ids + {m.id}, fields, options, tail);
      LevelCons(m, rest, fields, options, WriteAll(Writes(rest), fields, options) + tail, tail);
    }
  }

  lemma FirstApart(m: MemberVariable, rest: seq<MemberVariable>, names: set<string>, ids: set<nat>)
    requires Unseen([m] + rest, names, ids)
    ensures Unseen(rest, names + {m.name}, ids + {m.id}) && m.name !in Names(rest) && m.id !in Ids(rest)
  {
    assert ([m] + rest)[1..] == rest;
    UnseenIffDistinct(rest, names + {m.name}, ids + {m.id});
  }

  // ----- context values ------------------------------------------------------------------------------------

  function Stack(ps: Parameters, typ: string): seq<Value> {
    if typ in ps then ps[typ] else []
  }

  ghost predicate SameStacks(p: Parameters, q: Parameters) {
    forall typ :: Stack(p, typ) == Stack(q, typ)
  }

  function PushAll(list: seq<MemberVariable>, values: map<string, Value>, ps: Parameters): Parameters
    requires Names(list) <= values.Keys
  {
    if list == [] then ps
    else
      assert list[0].name in Names(list) && Names(list[1..]) <= Names(list);
      PushAll(list[1..], values, Push(ps, list[0].typ, values[list[0].name]))
  }

  function TypeCount(list: seq<MemberVariable>, typ: string): nat {
    if list == [] then 0 else (if list[0].typ == typ then 1 else 0) + TypeCount(list[1..], typ)
  }

  lemma {:induction false} RunSets(list: seq<MemberVariable>, s: ReadState, call: Deserializers)
    requires Names(list) <= s.locals.Keys
    ensures Run(Sets(list), s, call) == Ok(s.(parameters := PushAll(list, s.locals, s.parameters)))
  {
    if list != [] {
      assert list[0].name in Names(list) && Names(list[1..]) <= Names(list);
      assert Sets(list)[1..] == Sets(list[1..]);
      RunSets(list[1..], s.(parameters := Push(s.parameters, list[0].typ, s.locals[list[0].name])), call);
    }
  }

  lemma {:induction false} PushAllStack(list: seq<MemberVariable>, values: map<string, Value>, ps: Parameters, typ: string)
    requires Names(list) <= values.Keys
    ensures |Stack(PushAll(list, values, ps), typ)| == |Stack(ps, typ)| + TypeCount(list, typ)
    ensures Stack(PushAll(list, values, ps), typ)[..|Stack(ps, typ)|] == Stack(ps, typ)
  {
    if list != [] {
      assert list[0].name in Names(list) && Names(list[1..]) <= Names(list);
      var next := Push(ps, list[0].typ, values[list[0].name]);
      PushAllStack(list[1..], values, next, typ);
      assert Stack(next, typ)[..|Stack(ps, typ)|] == Stack(ps, typ);
      var end := Stack(PushAll(list, values, ps), typ);
      assert end[..|Stack(ps, typ)|] == end[..|Stack(next, typ)|][..|Stack(ps, typ)|];
    }
  }

  lemma {:induction false} RunUnsets(list: seq<MemberVariable>, s: ReadState, call: Deserializers)
    requires forall typ :: TypeCount(list, typ) <= |Stack(s.parameters, typ)|
    ensures Run(Unsets(list), s, call).Ok?
    ensures var t := Run(Unsets(list), s, call).value;
            t == s.(parameters := t.parameters) &&
            forall typ :: Stack(t.parameters, typ) == Stack(s.parameters, typ)[..|Stack(s.parameters, typ)| - TypeCount(list, typ)]
  {
    if list != [] {
      var typ := list[0].typ;
      assert TypeCount(list, typ) > 0;
      assert Unsets(list)[1..] == Unsets(list[1..]);
      var next := s.(parameters := s.parameters[typ := s.parameters[typ][..|s.parameters[typ]| - 1]]);
      forall other
        ensures Stack(next.parameters, other)
                == Stack(s.parameters, other)[..|Stack(s.parameters, other)| - if other == typ then 1 else 0]
        ensures TypeCount(list[1..], other) <= |Stack(next.parameters, other)|
      {
        assert TypeCount(list, other) <= |Stack(s.parameters, other)|;
      }
      RunUnsets(list[1..], next, call);
    }
  }

  /** Setting and unsetting the same parameters leaves the context as it was, whatever runs between. */
  lemma UnsetsUndoSets(list: seq<MemberVariable>, values: map<string, Value>, ps: Parameters, s: ReadState, call: Deserializers)
    requires Names(list) <= values.Keys && SameStacks(s.parameters, PushAll(list, values, ps))
    ensures Run(Unsets(list), s, call).Ok?
    ensures var t := Run(Unsets(list), s, call).value;
            t == s.(parameters := t.parameters) && SameStacks(t.parameters, ps)
  {
    forall typ
      ensures |Stack(s.parameters, typ)| == |Stack(ps, typ)| + TypeCount(list, typ)
      ensures Stack(s.parameters, typ)[..|Stack(ps, typ)|] == Stack(ps, typ)
    {
      PushAllStack(list, values, ps, typ);
      assert Stack(s.parameters, typ) == Stack(PushAll(list, values, ps), typ);
    }
    RunUnsets(list, s, call);
  }

  predicate DistinctTypes(list: seq<MemberVariable>) {
    forall i, j :: 0 <= i < j < |list| ==> list[i].typ != list[j].typ
  }

  lemma {:induction false} TopAfterPush(list: seq<MemberVariable>, values: map<string, Value>, ps: Parameters, i: nat)
    requires Names(list) <= values.Keys && DistinctTypes(list) && i < |list|
    ensures list[i].name in values && Top(PushAll(list, values, ps), list[i].typ) == Some(values[list[i].name])
  {
    assert list[0].name in Names(list) && Names(list[1..]) <= Names(list);
    var next := Push(ps, list[0].typ, values[list[0].name]);
    if i > 0 {
      TopAfterPush(list[1..], values, next, i - 1);
    } else {
      OtherTypes(list[1..], list[0].typ);
      PushAllStack(list[1..], values, next, list[0].typ);
      var stack := Stack(PushAll(list, values, ps), list[0].typ);
      assert stack[..|stack|] == stack;
    }
  }

  lemma {:induction false} OtherTypes(list: seq<MemberVariable>, typ: string)
    requires forall i :: 0 <= i < |list| ==> list[i].typ != typ
    ensures TypeCount(list, typ) == 0
  {
    if list != [] {
      OtherTypes(list[1..], typ);
    }
  }

  /** Parameters of other types are not touched. */
  lemma {:induction false} PushKeepsAvailable(list: seq<MemberVariable>, values: map<string, Value>, ps: Parameters, typ: string)
    requires Names(list) <= values.Keys && Top(ps, typ).Some?
    ensures Top(PushAll(list, values, ps), typ).Some?
  {
    PushAllStack(list, values, ps, typ);
  }

  // ----- the reader of a base class ------------------------------------------------------------------------

  function AssignedNames(cls: Class, members: seq<MemberVariable>): set<string>
    requires cls.BaseClass?
  {
    set m | m in members && Live(m) && !IsDispatch(cls, m) :: m.name
  }

  function Restrict(values: map<string, Value>, names: set<string>): map<string, Value> {
    map k | k in values && k in names :: values[k]
  }

  lemma RestrictMore(values: map<string, Value>, names: set<string>, name: string)
    requires name in values
    ensures Restrict(values, names) + map[name := values[name]] == Restrict(values, names + {name})
  {
  }

  lemma RunAssign(name: string, s: ReadState, call: Deserializers)
    requires s.result.Some? && name in s.locals
    ensures Run([Assign(name)], s, call) == Ok(Stored(s, Member, map[name := s.locals[name]], s.stream))
  {
    var fields := s.result.value.fields;
    assert fields[name := s.locals[name]] == fields + map[name := s.locals[name]];
    assert [Assign(name)][1..] == [];
  }

  lemma {:induction false} RunAssigns(cls: Class, members: seq<MemberVariable>, s: ReadState, call: Deserializers)
    requires cls.BaseClass? && s.result.Some? && LiveNames(members) <= s.locals.Keys
    ensures Run(Assigns(cls, members), s, call)
            == Ok(Stored(s, Member, Restrict(s.locals, AssignedNames(cls, members)), s.stream))
  {
    if members == [] {
      assert Restrict(s.locals, AssignedNames(cls, members)) == map[];
      StoredTwice(s, Member, map[], map[], s.stream, s.stream);
    } else {
      var m, before := members[|members| - 1], members[..|members| - 1];
      assert members == before + [m];
      RunAssigns(cls, before, s, call);
      if IsDispatch(cls, m) || m.deleted {
        assert AssignedNames(cls, members) == AssignedNames(cls, before);
        assert Assigns(cls, members) == Assigns(cls, before);
      } else {
        assert m.name in LiveNames(members);
        assert AssignedNames(cls, members) == AssignedNames(cls, before) + {m.name};
        RunAppend(Assigns(cls, before), [Assign(m.name)], s, call);
        var values := Restrict(s.locals, AssignedNames(cls, before));
        RunAssign(m.name, Stored(s, Member, values, s.stream), call);
        StoredTwice(s, Member, values, map[m.name := s.locals[m.name]], s.stream, s.stream);
        RestrictMore(s.locals, AssignedNames(cls, before), m.name);
      }
    }
  }

  /** What the generator and the C++ compiler need of a base class: the dispatch member and the parameters
      are read, enum entries are not used twice and a class name stands for one class. */
  ghost predicate BaseOk(cls: Class) {
    cls.BaseClass? && cls.enumValue in LiveNames(cls.members) &&
    Names(cls.setParameters) <= LiveNames(cls.members) && DistinctTypes(cls.setParameters) &&
    (forall i, j :: 0 <= i < j < |cls.children| ==> cls.children[i].enumEntry != cls.children[j].enumEntry) &&
    (forall i, j :: 0 <= i < j < |cls.children| && cls.children[i].cls.name == cls.children[j].cls.name ==>
       cls.children[i].cls == cls.children[j].cls)
  }

  lemma {:induction false} FindCaseOfChild(children: seq<Child>, k: nat)
    requires k < |children|
    requires forall i, j :: 0 <= i < j < |children| ==> children[i].enumEntry != children[j].enumEntry
    ensures FindCase(Cases(children), children[k].enumEntry) == Some(children[k].cls.name)
  {
    assert Cases(children)[1..] == Cases(children[1..]);
    if k > 0 {
      FindCaseOfChild(children[1..], k - 1);
    }
  }

  lemma {:induction false} NoCase(children: seq<Child>, value: Value)
    requires forall i :: 0 <= i < |children| ==> children[i].enumEntry != value
    ensures FindCase(Cases(children), value).None?
  {
    if children != [] {
      assert Cases(children)[1..] == Cases(children[1..]);
      NoCase(children[1..], value);
    }
  }

  lemma {:induction false} FindChildTotal(children: seq<Child>, k: nat)
    requires k < |children|
    ensures FindChild(children, children[k].cls.name).Some?
  {
    if k > 0 && children[0].cls.name != children[k].cls.name {
      FindChildTotal(children[1..], k - 1);
    }
  }

  /** What follows the reading of the members. */
  function Dispatching(cls: Class): seq<ReadOp>
    requires cls.BaseClass?
  {
    Sets(cls.setParameters) + ([Switch(cls.enumValue, Cases(cls.children))] + (Unsets(cls.setParameters) + Assigns(cls, cls.members)))
  }

  lemma BaseCodeShape(cls: Class, base: Option<Class>)
    requires cls.BaseClass?
    ensures BaseCode(cls, base).deserialize == Reads(cls.members, Local) + Dispatching(cls)
  {
  }

  lemma BaseReads(cls: Class, base: Option<Class>, stream: seq<Token>, ps: Parameters)
    requires BaseOk(cls)
    ensures ReadMembers(cls.members, stream).Err? ==> Deserialize(cls, base, stream, ps).Err?
    ensures ReadMembers(cls.members, stream).Ok? ==>
              var (values, rest) := ReadMembers(cls.members, stream).value;
              Run(BaseCode(cls, base).deserialize, ReadState(stream, map[], None, ps), Callees(cls))
              == Run(Dispatching(cls), ReadState(rest, values, None, ps), Callees(cls))
  {
    var s := ReadState(stream, map[], None, ps);
    RunReads(cls.members, Local, s, Callees(cls));
    RunAppend(Reads(cls.members, Local), Dispatching(cls), s, Callees(cls));
    BaseCodeShape(cls, base);
    if ReadMembers(cls.members, stream).Ok? {
      var values := ReadMembers(cls.members, stream).value.0;
      assert map[] + values == values;
    }
  }

  /** The state at the switch. */
  lemma RunDispatching(cls: Class, values: map<string, Value>, rest: seq<Token>, ps: Parameters)
    requires BaseOk(cls) && values.Keys == LiveNames(cls.members)
    ensures var pushed := PushAll(cls.setParameters, values, ps);
            var found := FindCase(Cases(cls.children), values[cls.enumValue]);
            var r := Run(Dispatching(cls), ReadState(rest, values, None, ps), Callees(cls));
            && (found.None? ==> r.Err?)
            && (found.Some? ==>
                  var q := Callees(cls)(found.value, rest, pushed);
                  && (q.Err? ==> r.Err?)
                  && (q.Ok? ==> r == Run(Unsets(cls.setParameters) + Assigns(cls, cls.members),
                                         ReadState(q.value.stream, values, Some(q.value.result), q.value.parameters), Callees(cls))))
  {
    var s := ReadState(rest, values, None, ps);
    var after := Unsets(cls.setParameters) + Assigns(cls, cls.members);
    var op := Switch(cls.enumValue, Cases(cls.children));
    RunSets(cls.setParameters, s, Callees(cls));
    RunAppend(Sets(cls.setParameters), [op] + after, s, Callees(cls));
    assert ([op] + after)[1..] == after;
  }

  /** The case taken leads to the child of this enum entry. */
  lemma CalleeOfCase(cls: Class, k: nat, stream: seq<Token>, ps: Parameters)
    requires BaseOk(cls) && k < |cls.children|
    ensures FindCase(Cases(cls.children), cls.children[k].enumEntry) == Some(cls.children[k].cls.name)
    ensures Callees(cls)(cls.children[k].cls.name, stream, ps) == Deserialize(cls.children[k].cls, Some(cls), stream, ps)
  {
    FindCaseOfChild(cls.children, k);
    FindChildTotal(cls.children, k);
    var j := FindChild(cls.children, cls.children[k].cls.name).value;
    assert cls.children[j].cls == cls.children[k].cls;
  }

  /** After the child class: the parameters are unset and the members assigned. */
  lemma RunAfterChild(cls: Class, values: map<string, Value>, ps: Parameters, reply: Reply)
    requires BaseOk(cls) && values.Keys == LiveNames(cls.members)
    requires SameStacks(reply.parameters, PushAll(cls.setParameters, values, ps))
    ensures var r := Run(Unsets(cls.setParameters) + Assigns(cls, cls.members),
                         ReadState(reply.stream, values, Some(reply.result), reply.parameters), Callees(cls));
            && r.Ok? && SameStacks(r.value.parameters, ps) && r.value.stream == reply.stream
            && r.value.result == Some(Object(reply.result.className,
                                             reply.result.fields + Restrict(values, AssignedNames(cls, cls.members))))
  {
    var s := ReadState(reply.stream, values, Some(reply.result), reply.parameters);
    UnsetsUndoSets(cls.setParameters, values, ps, s, Callees(cls));
    RunAppend(Unsets(cls.setParameters), Assigns(cls, cls.members), s, Callees(cls));
    RunAssigns(cls, cls.members, Run(Unsets(cls.setParameters), s, Callees(cls)).value, Callees(cls));
  }

  /** The reader of a base class: its members, then the child class of the enum entry read, with the
      parameters set, then the assignments over what the child class has constructed. */
  lemma BaseRun(cls: Class, base: Option<Class>, stream: seq<Token>, ps: Parameters, values: map<string, Value>, rest: seq<Token>,
                k: nat)
    requires BaseOk(cls) && k < |cls.children|
    requires ReadMembers(cls.members, stream) == Ok((values, rest)) && values.Keys == LiveNames(cls.members)
    requires cls.children[k].enumEntry == values[cls.enumValue]
    ensures var pushed := PushAll(cls.setParameters, values, ps);
            var q := Deserialize(cls.children[k].cls, Some(cls), rest, pushed);
            var d := Deserialize(cls, base, stream, ps);
            && (q.Err? ==> d.Err?)
            && (q.Ok? && SameStacks(q.value.parameters, pushed) ==>
                  && d.Ok? && d.value.stream == q.value.stream && SameStacks(d.value.parameters, ps)
                  && d.value.result == Object(q.value.result.className,
                                              q.value.result.fields + Restrict(values, AssignedNames(cls, cls.members))))
  {
    BaseReads(cls, base, stream, ps);
    RunDispatching(cls, values, rest, ps);
    var pushed := PushAll(cls.setParameters, values, ps);
    CalleeOfCase(cls, k, rest, pushed);
    var q := Deserialize(cls.children[k].cls, Some(cls), rest, pushed);
    if q.Ok? && SameStacks(q.value.parameters, pushed) {
      RunAfterChild(cls, values, ps, q.value);
    }
  }

  // ----- the reader of a class -----------------------------------------------------------------------------

  function Prefix(cls: Class): nat
    requires cls.DataClass?
  {
    ConstructorPrefix(cls.members, cls.constructorEntries)
  }

  /** The members set as parameters, in member order. */
  function SetMembers(cls: Class, n: nat): seq<MemberVariable>
    requires n <= |cls.members|
  {
    if n == 0 then []
    else
      var m := cls.members[n - 1];
      SetMembers(cls, n - 1) + if m.name in Names(cls.setParameters) && !m.deleted then [m] else []
  }

  function KeptNames(cls: Class, n: nat): set<string>
    requires cls.DataClass? && n <= |cls.members|
  {
    set m | m in cls.members[..n] && Live(m) && m.name !in EntryNames(cls.constructorEntries) :: m.name
  }

  lemma {:induction false} PushAllAppend(a: seq<MemberVariable>, b: seq<MemberVariable>, values: map<string, Value>, ps: Parameters)
    requires Names(a) <= values.Keys && Names(b) <= values.Keys
    ensures Names(a + b) <= values.Keys
    ensures PushAll(a + b, values, ps) == PushAll(b, values, PushAll(a, values, ps))
  {
    if a == [] {
      assert a + b == b;
    } else {
      assert a[0].name in Names(a) && Names(a[1..]) <= Names(a);
      assert (a + b)[0] == a[0] && (a + b)[1..] == a[1..] + b;
      PushAllAppend(a[1..], b, values, Push(ps, a[0].typ, values[a[0].name]));
    }
  }

  lemma {:induction false} SetMembersLive(cls: Class, n: nat)
    requires n <= |cls.members|
    ensures Names(SetMembers(cls, n)) <= LiveNames(cls.members[..n])
  {
    if n > 0 {
      SetMembersLive(cls, n - 1);
      var m := cls.members[n - 1];
      assert cls.members[..n] == cls.members[..n - 1] + [m];
      forall x | x in SetMembers(cls, n)
        ensures x.name in LiveNames(cls.members[..n])
      {
        if x in SetMembers(cls, n - 1) {
          assert x.name in Names(SetMembers(cls, n - 1));
          assert x.name in LiveNames(cls.members[..n - 1]);
        } else {
          assert x == m && m in cls.members[..n];
        }
      }
    }
  }

  /** The state after the first `n` members have been taken over from the locals. */
  function KeptState(cls: Class, n: nat, s: ReadState): ReadState
    requires cls.DataClass? && n <= |cls.members| && s.result.Some? && Names(SetMembers(cls, n)) <= s.locals.Keys
  {
    Stored(s, Member, Restrict(s.locals, KeptNames(cls, n)), s.stream)
      .(parameters := PushAll(SetMembers(cls, n), s.locals, s.parameters))
  }

  lemma RunOneKept(cls: Class, n: nat, s: ReadState, call: Deserializers)
    requires cls.DataClass? && n < Prefix(cls) && s.result.Some? && (Live(cls.members[n]) ==> cls.members[n].name in s.locals)
    requires Names(SetMembers(cls, n + 1)) <= s.locals.Keys && Names(SetMembers(cls, n)) <= s.locals.Keys
    ensures Run(LaterCode(cls, n), KeptState(cls, n, s), call) == Ok(KeptState(cls, n + 1, s))
  {
    var m := cls.members[n];
    RunLater(cls, n, KeptState(cls, n, s), call);
    StoredTwice(s, Member, Restrict(s.locals, KeptNames(cls, n)),
                if Live(m) && m.name !in EntryNames(cls.constructorEntries) then map[m.name := s.locals[m.name]] else map[],
                s.stream, s.stream);
    KeptMore(cls, n, s.locals);
    SetMore(cls, n, s);
  }

  /** Before the construction point everything that is taken over is in the locals. */
  lemma LiveBefore(cls: Class, n: nat, m: nat, locals: map<string, Value>)
    requires m <= n <= |cls.members| && LiveNames(cls.members[..n]) <= locals.Keys
    ensures Names(SetMembers(cls, m)) <= locals.Keys
    ensures m < n && Live(cls.members[m]) ==> cls.members[m].name in locals
  {
    assert LiveNames(cls.members[..m]) <= LiveNames(cls.members[..n]);
    SetMembersLive(cls, m);
    assert m < n ==> cls.members[m] in cls.members[..n];
  }

  /** Members after one another. */
  lemma {:induction false} RunMembers(cls: Class, n: nat, states: seq<ReadState>, call: Deserializers)
    requires cls.DataClass? && n <= |cls.members| && |states| == n + 1
    requires forall i :: 0 <= i < n ==> Run(LaterCode(cls, i), states[i], call) == Ok(states[i + 1])
    ensures Run(AfterConstruction(cls, n), states[0], call) == Ok(states[n])
    decreases n
  {
    if n > 0 {
      RunMembers(cls, n - 1, states[..n], call);
      assert Run(LaterCode(cls, n - 1), states[n - 1], call) == Ok(states[n]);
      RunBoth(AfterConstruction(cls, n - 1), LaterCode(cls, n - 1), states[0], states[n - 1], states[n], call);
    }
  }

  /** Assignments and parameters of the members read before construction. */
  lemma RunKept(cls: Class, n: nat, s: ReadState, call: Deserializers)
    requires cls.DataClass? && n <= Prefix(cls) && s.result.Some? && LiveNames(cls.members[..n]) <= s.locals.Keys
    ensures Names(SetMembers(cls, n)) <= s.locals.Keys
    ensures Run(AfterConstruction(cls, n), s, call) == Ok(KeptState(cls, n, s))
  {
    var states := KeptStates(cls, n, s);
    forall i | 0 <= i < n
      ensures Run(LaterCode(cls, i), states[i], call) == Ok(states[i + 1])
    {
      KeptStep(cls, n, s, states, i, call);
    }
    LiveBefore(cls, n, 0, s.locals);
    LiveBefore(cls, n, n, s.locals);
    NothingKept(cls, s);
    RunMembers(cls, n, states, call);
  }

  ghost predicate AreKeptStates(cls: Class, n: nat, s: ReadState, states: seq<ReadState>) {
    cls.DataClass? && n <= |cls.members| && s.result.Some? && |states| == n + 1 &&
    forall i :: 0 <= i <= n ==> Names(SetMembers(cls, i)) <= s.locals.Keys && states[i] == KeptState(cls, i, s)
  }

  /** The states between the members. */
  lemma KeptStates(cls: Class, n: nat, s: ReadState) returns (states: seq<ReadState>)
    requires cls.DataClass? && n <= |cls.members| && s.result.Some? && LiveNames(cls.members[..n]) <= s.locals.Keys
    ensures AreKeptStates(cls, n, s, states)
  {
    forall i | 0 <= i <= n
      ensures Names(SetMembers(cls, i)) <= s.locals.Keys
    {
      LiveBefore(cls, n, i, s.locals);
    }
    states := seq(n + 1, i requires 0 <= i <= n => KeptState(cls, i, s));
  }

  lemma KeptStep(cls: Class, n: nat, s: ReadState, states: seq<ReadState>, i: nat, call: Deserializers)
    requires AreKeptStates(cls, n, s, states) && i < n <= Prefix(cls) && LiveNames(cls.members[..n]) <= s.locals.Keys
    ensures Run(LaterCode(cls, i), states[i], call) == Ok(states[i + 1])
  {
    LiveBefore(cls, n, i, s.locals);
    LiveBefore(cls, n, i + 1, s.locals);
    RunOneKept(cls, i, s, call);
  }

  lemma NothingKept(cls: Class, s: ReadState)
    requires cls.DataClass? && s.result.Some?
    ensures SetMembers(cls, 0) == [] && KeptState(cls, 0, s) == s
  {
    assert SetMembers(cls, 0) == [];
    assert Restrict(s.locals, KeptNames(cls, 0)) == map[];
    StoredTwice(s, Member, map[], map[], s.stream, s.stream);
  }

  lemma RunBoth(a: seq<ReadOp>, b: seq<ReadOp>, s: ReadState, middle: ReadState, end: ReadState, call: Deserializers)
    requires Run(a, s, call) == Ok(middle) && Run(b, middle, call) == Ok(end)
    ensures Run(a + b, s, call) == Ok(end)
  {
    RunAppend(a, b, s, call);
  }

  /** The code of one member before the construction point. */
  lemma RunLater(cls: Class, i: nat, s: ReadState, call: Deserializers)
    requires cls.DataClass? && i < Prefix(cls) && s.result.Some? && (Live(cls.members[i]) ==> cls.members[i].name in s.locals)
    ensures var m := cls.members[i];
            var kept := Live(m) && m.name !in EntryNames(cls.constructorEntries);
            var isSet := m.name in Names(cls.setParameters) && !m.deleted;
            Run(LaterCode(cls, i), s, call)
            == Ok(Stored(s, Member, if kept then map[m.name := s.locals[m.name]] else map[], s.stream)
                  .(parameters := if isSet then Push(s.parameters, m.typ, s.locals[m.name]) else s.parameters))
  {
    var m := cls.members[i];
    var a := if m.name !in EntryNames(cls.constructorEntries) && !m.deleted then [Assign(m.name)] else [];
    var b := if m.name in Names(cls.setParameters) && !m.deleted then [Set(m.typ, m.name)] else [];
    assert LaterCode(cls, i) == a + b;
    RunAppend(a, b, s, call);
    StoredTwice(s, Member, map[], map[], s.stream, s.stream);
    if a != [] {
      RunAssign(m.name, s, call);
    }
    if b != [] {
      assert b[1..] == [];
    }
  }

  lemma KeptMore(cls: Class, i: nat, locals: map<string, Value>)
    requires cls.DataClass? && i < |cls.members| && (Live(cls.members[i]) ==> cls.members[i].name in locals)
    ensures var m := cls.members[i];
            Restrict(locals, KeptNames(cls, i + 1))
            == Restrict(locals, KeptNames(cls, i))
               + if Live(m) && m.name !in EntryNames(cls.constructorEntries) then map[m.name := locals[m.name]] else map[]
  {
    var m := cls.members[i];
    KeptNamesMore(cls, i);
    if Live(m) && m.name !in EntryNames(cls.constructorEntries) {
      RestrictMore(locals, KeptNames(cls, i), m.name);
    } else {
      assert Restrict(locals, KeptNames(cls, i)) + map[] == Restrict(locals, KeptNames(cls, i));
    }
  }

  lemma KeptNamesMore(cls: Class, i: nat)
    requires cls.DataClass? && i < |cls.members|
    ensures var m := cls.members[i];
            KeptNames(cls, i + 1)
            == KeptNames(cls, i) + if Live(m) && m.name !in EntryNames(cls.constructorEntries) then {m.name} else {}
  {
    assert cls.members[..i + 1] == cls.members[..i] + [cls.members[i]];
  }

  lemma SetMore(cls: Class, i: nat, s: ReadState)
    requires i < |cls.members| && Names(SetMembers(cls, i)) <= s.locals.Keys
    requires Live(cls.members[i]) ==> cls.members[i].name in s.locals
    ensures var m := cls.members[i];
            var isSet := m.name in Names(cls.setParameters) && !m.deleted;
            var before := PushAll(SetMembers(cls, i), s.locals, s.parameters);
            Names(SetMembers(cls, i + 1)) <= s.locals.Keys &&
            PushAll(SetMembers(cls, i + 1), s.locals, s.parameters)
            == if isSet then Push(before, m.typ, s.locals[m.name]) else before
  {
    var m := cls.members[i];
    if m.name in Names(cls.setParameters) && !m.deleted {
      assert Names([m]) == {m.name};
      PushAllAppend(SetMembers(cls, i), [m], s.locals, s.parameters);
      assert [m][1..] == [];
    } else {
      assert SetMembers(cls, i + 1) == SetMembers(cls, i);
    }
  }

  // ----- constructor arguments -----------------------------------------------------------------------------

  predicate Supplied(a: Argument, locals: map<string, Value>, ps: Parameters) {
    match a
    case FromLocal(name) => name in locals
    case FromParameter(_, typ) => Top(ps, typ).Some?
    case FromContext(typ, isOptional) => isOptional || Top(ps, typ).Some?
  }

  function BoundTo(a: Argument, locals: map<string, Value>, ps: Parameters): map<string, Value>
    requires Supplied(a, locals, ps)
  {
    match a
    case FromLocal(name) => map[name := locals[name]]
    case FromParameter(name, typ) => map[name := Top(ps, typ).value]
    case FromContext(_, _) => map[]
  }

  function Bound(arguments: seq<Argument>, locals: map<string, Value>, ps: Parameters): map<string, Value>
    requires forall a :: a in arguments ==> Supplied(a, locals, ps)
  {
    if arguments == [] then map[] else BoundTo(arguments[0], locals, ps) + Bound(arguments[1..], locals, ps)
  }

  lemma {:induction false} ArgumentsAreBound(arguments: seq<Argument>, s: ReadState, fields: map<string, Value>)
    requires forall a :: a in arguments ==> Supplied(a, s.locals, s.parameters)
    ensures Arguments(arguments, s, fields) == Ok(fields + Bound(arguments, s.locals, s.parameters))
  {
    if arguments == [] {
      assert fields + map[] == fields;
    } else {
      var one := BoundTo(arguments[0], s.locals, s.parameters);
      assert Supplied(arguments[0], s.locals, s.parameters);
      ArgumentIsBound(arguments, s, fields);
      ArgumentsAreBound(arguments[1..], s, fields + one);
      MergeAssociates(fields, one, Bound(arguments[1..], s.locals, s.parameters));
    }
  }

  lemma ArgumentIsBound(arguments: seq<Argument>, s: ReadState, fields: map<string, Value>)
    requires arguments != [] && Supplied(arguments[0], s.locals, s.parameters)
    ensures Arguments(arguments, s, fields) == Arguments(arguments[1..], s, fields + BoundTo(arguments[0], s.locals, s.parameters))
  {
    var one := BoundTo(arguments[0], s.locals, s.parameters);
    assert arguments[0].FromContext? ==> fields + one == fields;
    assert !arguments[0].FromContext? ==> fields + one == fields[arguments[0].name := one[arguments[0].name]];
  }

  lemma MergeAssociates(a: map<string, Value>, b: map<string, Value>, c: map<string, Value>)
    ensures a + (b + c) == (a + b) + c
  {
  }

  /** If every argument of this name stands for the same value, the name is bound to it. */
  lemma {:induction false} BoundValue(arguments: seq<Argument>, locals: map<string, Value>, ps: Parameters, name: string, value: Value)
    requires forall a :: a in arguments ==> Supplied(a, locals, ps)
    requires forall a :: a in arguments && !a.FromContext? && a.name == name ==> BoundTo(a, locals, ps) == map[name := value]
    ensures name in Bound(arguments, locals, ps) <==> exists a :: a in arguments && !a.FromContext? && a.name == name
    ensures name in Bound(arguments, locals, ps) ==> Bound(arguments, locals, ps)[name] == value
  {
    if arguments != [] {
      assert arguments == [arguments[0]] + arguments[1..];
      assert Supplied(arguments[0], locals, ps);
      BoundValue(arguments[1..], locals, ps, name, value);
    }
  }

  /** The arguments are those of the entries. */
  lemma {:induction false} ArgumentsOfEntries(cls: Class, base: Option<Class>, entries: seq<string>, a: Argument)
    requires ConstructorArguments(cls, base, entries).Ok?
    ensures a in ConstructorArguments(cls, base, entries).value <==>
            exists e :: e in entries && a in EntryArguments(cls, base, e)
  {
    if entries != [] {
      var before, e := entries[..|entries| - 1], entries[|entries| - 1];
      assert entries == before + [e];
      ArgumentsOfEntries(cls, base, before, a);
    }
  }

  lemma {:induction false} PrefixCovers(members: seq<MemberVariable>, entries: seq<string>, e: string)
    requires e in entries && FindMember(members, EntryName(e)).Some?
    ensures FindMember(members, EntryName(e)).value < ConstructorPrefix(members, entries)
  {
    var before, last := entries[..|entries| - 1], entries[|entries| - 1];
    assert entries == before + [last];
    if e != last {
      PrefixCovers(members, before, e);
    }
  }

  predicate FromEntry(cls: Class, base: Option<Class>, a: Argument)
    requires cls.DataClass?
  {
    match a
    case FromContext(_, _) => true
    case FromLocal(name) =>
      name in EntryNames(cls.constructorEntries) && FindMember(cls.members, name).Some? &&
      FindMember(cls.members, name).value < Prefix(cls)
    case FromParameter(name, typ) =>
      var k := FindMember(BaseParameters(base), name);
      name in EntryNames(cls.constructorEntries) && k.Some? && BaseParameters(base)[k.value].typ == typ
  }

  lemma EntryOfArgument(cls: Class, base: Option<Class>, a: Argument)
    requires cls.DataClass? && ConstructorArguments(cls, base, cls.constructorEntries).Ok?
    requires a in ConstructorArguments(cls, base, cls.constructorEntries).value
    ensures FromEntry(cls, base, a)
  {
    ArgumentsOfEntries(cls, base, cls.constructorEntries, a);
    var e :| e in cls.constructorEntries && a in EntryArguments(cls, base, e);
    ArgumentName(cls, base, e, a);
    assert EntryName(e) in EntryNames(cls.constructorEntries);
    if a.FromLocal? {
      PrefixCovers(cls.members, cls.constructorEntries, e);
    }
  }

  lemma ArgumentName(cls: Class, base: Option<Class>, e: string, a: Argument)
    requires a in EntryArguments(cls, base, e)
    ensures a.FromLocal? ==> a.name == EntryName(e) && FindMember(cls.members, a.name).Some?
    ensures a.FromParameter? ==>
              var k := FindMember(BaseParameters(base), a.name);
              a.name == EntryName(e) && k.Some? && BaseParameters(base)[k.value].typ == a.typ
  {
  }

  lemma ArgumentOfEntry(cls: Class, base: Option<Class>, name: string)
    requires cls.DataClass? && ConstructorArguments(cls, base, cls.constructorEntries).Ok?
    requires name in EntryNames(cls.constructorEntries)
    ensures FindMember(cls.members, name).Some? ==>
              FromLocal(name) in ConstructorArguments(cls, base, cls.constructorEntries).value
    ensures var k := FindMember(BaseParameters(base), name);
            k.Some? ==>
              FromParameter(name, BaseParameters(base)[k.value].typ) in ConstructorArguments(cls, base, cls.constructorEntries).value
  {
    var e :| e in cls.constructorEntries && EntryName(e) == name;
    if FindMember(cls.members, name).Some? {
      assert FromLocal(name) in EntryArguments(cls, base, e);
      ArgumentsOfEntries(cls, base, cls.constructorEntries, FromLocal(name));
    }
    var k := FindMember(BaseParameters(base), name);
    if k.Some? {
      var a := FromParameter(name, BaseParameters(base)[k.value].typ);
      assert a in EntryArguments(cls, base, e);
      ArgumentsOfEntries(cls, base, cls.constructorEntries, a);
    }
  }

  /** What the generator and the C++ compiler need of a class: constructor entries are found, and what the
      constructor or a parameter takes has been read into a local variable before. */
  ghost predicate ClassOk(cls: Class, base: Option<Class>) {
    cls.DataClass? && ConstructorArguments(cls, base, cls.constructorEntries).Ok? &&
    (forall m :: m in cls.members && m.name in EntryNames(cls.constructorEntries) ==> Live(m)) &&
    SetMembers(cls, Prefix(cls)) == cls.setParameters &&
    (forall i :: Prefix(cls) <= i < |cls.members| && Live(cls.members[i]) ==> cls.members[i].name !in Names(cls.setParameters)) &&
    Names(BaseParameters(base)) !! Names(cls.members)
  }

  /** The context holds what the constructor gets from it. */
  ghost predicate ContextReady(cls: Class, base: Option<Class>, ps: Parameters)
    requires ClassOk(cls, base)
  {
    forall a :: a in ConstructorArguments(cls, base, cls.constructorEntries).value && !a.FromLocal? ==> Supplied(a, map[], ps)
  }

  lemma ArgumentsSupplied(cls: Class, base: Option<Class>, locals: map<string, Value>, ps: Parameters)
    requires ClassOk(cls, base) && ContextReady(cls, base, ps)
    requires LiveNames(cls.members[..Prefix(cls)]) <= locals.Keys
    ensures forall a :: a in ConstructorArguments(cls, base, cls.constructorEntries).value ==> Supplied(a, locals, ps)
  {
    forall a | a in ConstructorArguments(cls, base, cls.constructorEntries).value
      ensures Supplied(a, locals, ps)
    {
      if a.FromLocal? {
        EntryOfArgument(cls, base, a);
        var m := cls.members[FindMember(cls.members, a.name).value];
        assert m in cls.members && m in cls.members[..Prefix(cls)];
      } else {
        assert Supplied(a, map[], ps);
      }
    }
  }

  /** A member the constructor takes is stored by it. */
  lemma MemberBound(cls: Class, base: Option<Class>, locals: map<string, Value>, ps: Parameters, name: string)
    requires ClassOk(cls, base) && name in Names(cls.members)
    requires forall a :: a in ConstructorArguments(cls, base, cls.constructorEntries).value ==> Supplied(a, locals, ps)
    ensures var bound := Bound(ConstructorArguments(cls, base, cls.constructorEntries).value, locals, ps);
            (name in bound <==> name in EntryNames(cls.constructorEntries)) &&
            (name in bound ==> name in locals && bound[name] == locals[name])
  {
    var arguments := ConstructorArguments(cls, base, cls.constructorEntries).value;
    forall a | a in arguments && !a.FromContext? && a.name == name
      ensures a == FromLocal(name) && name in EntryNames(cls.constructorEntries)
    {
      EntryOfArgument(cls, base, a);
      assert a.FromParameter? ==> name in Names(BaseParameters(base));
    }
    if name in EntryNames(cls.constructorEntries) {
      ArgumentOfEntry(cls, base, name);
      assert Supplied(FromLocal(name), locals, ps);
      BoundValue(arguments, locals, ps, name, locals[name]);
    } else {
      BoundValue(arguments, locals, ps, name, Other(0));
    }
  }

  /** A parameter of the base class that the constructor takes is stored by it, and nothing else is. */
  lemma ParameterBound(cls: Class, base: Option<Class>, locals: map<string, Value>, ps: Parameters, name: string)
    requires ClassOk(cls, base) && name !in Names(cls.members)
    requires forall a :: a in ConstructorArguments(cls, base, cls.constructorEntries).value ==> Supplied(a, locals, ps)
    ensures var bound := Bound(ConstructorArguments(cls, base, cls.constructorEntries).value, locals, ps);
            var k := FindMember(BaseParameters(base), name);
            (name in bound <==> k.Some? && name in EntryNames(cls.constructorEntries)) &&
            (name in bound ==> Top(ps, BaseParameters(base)[k.value].typ) == Some(bound[name]))
  {
    var arguments := ConstructorArguments(cls, base, cls.constructorEntries).value;
    var k := FindMember(BaseParameters(base), name);
    forall a | a in arguments && !a.FromContext? && a.name == name
      ensures k.Some? && a == FromParameter(name, BaseParameters(base)[k.value].typ) && name in EntryNames(cls.constructorEntries)
    {
      EntryOfArgument(cls, base, a);
    }
    if k.Some? && name in EntryNames(cls.constructorEntries) {
      var a := FromParameter(name, BaseParameters(base)[k.value].typ);
      ArgumentOfEntry(cls, base, name);
      assert Supplied(a, locals, ps);
      BoundValue(arguments, locals, ps, name, Top(ps, a.typ).value);
    } else {
      BoundValue(arguments, locals, ps, name, Other(0));
    }
  }

  // ----- the reader of a class, as a whole -----------------------------------------------------------------

  lemma ReadsOneMore(members: seq<MemberVariable>, m: MemberVariable, target: Target)
    ensures Reads(members + [m], target) == Reads(members, target) + [GetDeserializeElement(m, target)]
  {
  }

  /** After the construction point the remaining members are read into the result. */
  lemma AfterSplit(cls: Class, n: nat)
    requires cls.DataClass? && Prefix(cls) <= n <= |cls.members|
    requires forall i :: Prefix(cls) <= i < |cls.members| && Live(cls.members[i]) ==> cls.members[i].name !in Names(cls.setParameters)
    ensures AfterConstruction(cls, n) == AfterConstruction(cls, Prefix(cls)) + Reads(cls.members[Prefix(cls)..n], Member)
  {
    forall i | Prefix(cls) <= i < n
      ensures LaterCode(cls, i) == [GetDeserializeElement(cls.members[i], Member)]
    {
      LaterIsRead(cls, i);
    }
    AfterSplitAt(cls, Prefix(cls), n);
  }

  lemma {:induction false} AfterSplitAt(cls: Class, from: nat, n: nat)
    requires cls.DataClass? && from <= n <= |cls.members|
    requires forall i :: from <= i < n ==> LaterCode(cls, i) == [GetDeserializeElement(cls.members[i], Member)]
    ensures AfterConstruction(cls, n) == AfterConstruction(cls, from) + Reads(cls.members[from..n], Member)
    decreases n
  {
    if n > from {
      AfterSplitAt(cls, from, n - 1);
      var m, part := cls.members[n - 1], cls.members[from..n - 1];
      assert cls.members[from..n] == part + [m];
      ReadsOneMore(part, m, Member);
      AppendOne(AfterConstruction(cls, from), Reads(part, Member), GetDeserializeElement(m, Member));
    } else {
      assert cls.members[from..n] == [];
    }
  }

  lemma AppendOne<T>(a: seq<T>, b: seq<T>, x: T)
    ensures a + (b + [x]) == (a + b) + [x]
  {
  }

  lemma LaterIsRead(cls: Class, i: nat)
    requires cls.DataClass? && Prefix(cls) <= i < |cls.members|
    requires Live(cls.members[i]) ==> cls.members[i].name !in Names(cls.setParameters)
    ensures LaterCode(cls, i) == [GetDeserializeElement(cls.members[i], Member)]
  {
  }

  /** The fields when the members read before the construction point are in place. */
  function ConstructedFields(cls: Class, base: Option<Class>, ps: Parameters, first: map<string, Value>): map<string, Value>
    requires cls.DataClass? && ConstructorArguments(cls, base, cls.constructorEntries).Ok?
    requires forall a :: a in ConstructorArguments(cls, base, cls.constructorEntries).value ==> Supplied(a, first, ps)
  {
    cls.fixed + Bound(ConstructorArguments(cls, base, cls.constructorEntries).value, first, ps)
    + Restrict(first, KeptNames(cls, Prefix(cls)))
  }

  /** The fields of the object the reader builds, given what the two halves of the members read. */
  function ClassFields(cls: Class, base: Option<Class>, ps: Parameters, first: map<string, Value>, second: map<string, Value>)
    : map<string, Value>
    requires cls.DataClass? && ConstructorArguments(cls, base, cls.constructorEntries).Ok?
    requires forall a :: a in ConstructorArguments(cls, base, cls.constructorEntries).value ==> Supplied(a, first, ps)
  {
    ConstructedFields(cls, base, ps, first) + second
  }

  /** From the constructor call on. */
  function Constructing(cls: Class, arguments: seq<Argument>): seq<ReadOp>
    requires cls.DataClass?
  {
    [Construct(cls.name, cls.fixed, arguments)]
    + (AfterConstruction(cls, Prefix(cls)) + (Reads(cls.members[Prefix(cls)..], Member) + Unsets(cls.setParameters)))
  }

  lemma ClassCodeShape(cls: Class, base: Option<Class>)
    requires ClassOk(cls, base)
    ensures ClassCode(cls, base).Ok?
    ensures ClassCode(cls, base).value.deserialize
            == Reads(cls.members[..Prefix(cls)], Local) + Constructing(cls, ConstructorArguments(cls, base, cls.constructorEntries).value)
  {
    var p := Prefix(cls);
    var arguments := ConstructorArguments(cls, base, cls.constructorEntries).value;
    AfterSplit(cls, |cls.members|);
    assert cls.members[p..|cls.members|] == cls.members[p..];
    Regroup(Reads(cls.members[..p], Local), [Construct(cls.name, cls.fixed, arguments)], AfterConstruction(cls, p),
            Reads(cls.members[p..], Member), Unsets(cls.setParameters));
  }

  lemma Regroup<T>(a: seq<T>, b: seq<T>, c: seq<T>, d: seq<T>, e: seq<T>)
    ensures a + b + (c + d) + e == a + (b + (c + (d + e)))
  {
  }

  lemma ClassReads(cls: Class, base: Option<Class>, stream: seq<Token>, ps: Parameters)
    requires ClassOk(cls, base)
    ensures ReadMembers(cls.members[..Prefix(cls)], stream).Err? ==> Deserialize(cls, base, stream, ps).Err?
    ensures ReadMembers(cls.members[..Prefix(cls)], stream).Ok? ==>
              var (first, rest) := ReadMembers(cls.members[..Prefix(cls)], stream).value;
              Deserialize(cls, base, stream, ps)
              == Replied(Run(Constructing(cls, ConstructorArguments(cls, base, cls.constructorEntries).value),
                             ReadState(rest, first, None, ps), Callees(cls)))
  {
    ClassCodeShape(cls, base);
    var members := cls.members[..Prefix(cls)];
    ReadsThen(members, Constructing(cls, ConstructorArguments(cls, base, cls.constructorEntries).value), stream, ps, Callees(cls));
  }

  lemma ReadsThen(members: seq<MemberVariable>, later: seq<ReadOp>, stream: seq<Token>, ps: Parameters, call: Deserializers)
    ensures var s := ReadState(stream, map[], None, ps);
            && (ReadMembers(members, stream).Err? ==> Run(Reads(members, Local) + later, s, call).Err?)
            && (ReadMembers(members, stream).Ok? ==>
                  Run(Reads(members, Local) + later, s, call)
                  == Run(later, ReadState(ReadMembers(members, stream).value.1, ReadMembers(members, stream).value.0, None, ps), call))
  {
    var s := ReadState(stream, map[], None, ps);
    RunReads(members, Local, s, call);
    RunAppend(Reads(members, Local), later, s, call);
    if ReadMembers(members, stream).Ok? {
      var values := ReadMembers(members, stream).value.0;
      assert map[] + values == values;
    }
  }

  lemma RunConstruct(cls: Class, arguments: seq<Argument>, later: seq<ReadOp>, s: ReadState, call: Deserializers)
    requires cls.DataClass? && forall a :: a in arguments ==> Supplied(a, s.locals, s.parameters)
    ensures Run([Construct(cls.name, cls.fixed, arguments)] + later, s, call)
            == Run(later, s.(result := Some(Object(cls.name, cls.fixed + Bound(arguments, s.locals, s.parameters)))), call)
  {
    ArgumentsAreBound(arguments, s, cls.fixed);
    assert ([Construct(cls.name, cls.fixed, arguments)] + later)[1..] == later;
  }

  /** The state when the members after the construction point are to be read. */
  lemma RunConstructing(cls: Class, base: Option<Class>, first: map<string, Value>, stream: seq<Token>, ps: Parameters)
    requires ClassOk(cls, base) && LiveNames(cls.members[..Prefix(cls)]) <= first.Keys
    requires forall a :: a in ConstructorArguments(cls, base, cls.constructorEntries).value ==> Supplied(a, first, ps)
    ensures Names(cls.setParameters) <= first.Keys
    ensures Run(Constructing(cls, ConstructorArguments(cls, base, cls.constructorEntries).value),
                ReadState(stream, first, None, ps), Callees(cls))
            == Run(Reads(cls.members[Prefix(cls)..], Member) + Unsets(cls.setParameters),
                   ReadState(stream, first, Some(Object(cls.name, ConstructedFields(cls, base, ps, first))),
                             PushAll(cls.setParameters, first, ps)), Callees(cls))
  {
    var arguments := ConstructorArguments(cls, base, cls.constructorEntries).value;
    var later := Reads(cls.members[Prefix(cls)..], Member) + Unsets(cls.setParameters);
    RunConstruct(cls, arguments, AfterConstruction(cls, Prefix(cls)) + later, ReadState(stream, first, None, ps), Callees(cls));
    var built := ReadState(stream, first, Some(Object(cls.name, cls.fixed + Bound(arguments, first, ps))), ps);
    RunAppend(AfterConstruction(cls, Prefix(cls)), later, built, Callees(cls));
    RunKept(cls, Prefix(cls), built, Callees(cls));
  }

  /** The members after the construction point and the end of the reader. */
  lemma RunEnding(cls: Class, members: seq<MemberVariable>, s: ReadState, ps: Parameters, values: map<string, Value>)
    requires s.result.Some? && Names(cls.setParameters) <= values.Keys
    requires s.parameters == PushAll(cls.setParameters, values, ps)
    ensures var second := ReadMembers(members, s.stream);
            var r := Run(Reads(members, Member) + Unsets(cls.setParameters), s, Callees(cls));
            && (second.Err? ==> r.Err?)
            && (second.Ok? ==>
                  && r.Ok? && r.value.stream == second.value.1 && SameStacks(r.value.parameters, ps)
                  && r.value.result == Some(Object(s.result.value.className, s.result.value.fields + second.value.0)))
  {
    RunAppend(Reads(members, Member), Unsets(cls.setParameters), s, Callees(cls));
    RunReads(members, Member, s, Callees(cls));
    var second := ReadMembers(members, s.stream);
    if second.Ok? {
      UnsetsUndoSets(cls.setParameters, values, ps, Stored(s, Member, second.value.0, second.value.1), Callees(cls));
    }
  }

  /** The reader of a class after the members before the construction point: they are read from `rest`. */
  lemma ClassRunFrom(cls: Class, base: Option<Class>, stream: seq<Token>, ps: Parameters, first: map<string, Value>, rest: seq<Token>)
    requires ClassOk(cls, base) && ReadMembers(cls.members[..Prefix(cls)], stream) == Ok((first, rest))
    requires LiveNames(cls.members[..Prefix(cls)]) <= first.Keys
    requires forall a :: a in ConstructorArguments(cls, base, cls.constructorEntries).value ==> Supplied(a, first, ps)
    ensures var second := ReadMembers(cls.members[Prefix(cls)..], rest);
            var d := Deserialize(cls, base, stream, ps);
            && (second.Err? ==> d.Err?)
            && (second.Ok? ==>
                  && d.Ok? && d.value.stream == second.value.1 && SameStacks(d.value.parameters, ps)
                  && d.value.result == Object(cls.name, ClassFields(cls, base, ps, first, second.value.0)))
  {
    ClassReads(cls, base, stream, ps);
    RunConstructing(cls, base, first, rest, ps);
    var fields := ConstructedFields(cls, base, ps, first);
    var s := ReadState(rest, first, Some(Object(cls.name, fields)), PushAll(cls.setParameters, first, ps));
    RunEnding(cls, cls.members[Prefix(cls)..], s, ps, first);
  }

  /** The reader of a class: all members in order, across the constructor call. */
  lemma ClassRun(cls: Class, base: Option<Class>, stream: seq<Token>, ps: Parameters)
    returns (first: map<string, Value>, second: map<string, Value>)
    requires ClassOk(cls, base) && ContextReady(cls, base, ps)
    ensures ReadMembers(cls.members, stream).Err? ==> Deserialize(cls, base, stream, ps).Err?
    ensures ReadMembers(cls.members, stream).Ok? ==>
              && first.Keys == LiveNames(cls.members[..Prefix(cls)]) && second.Keys == LiveNames(cls.members[Prefix(cls)..])
              && ReadMembers(cls.members, stream).value.0 == first + second
              && (forall a :: a in ConstructorArguments(cls, base, cls.constructorEntries).value ==> Supplied(a, first, ps))
              && var d := Deserialize(cls, base, stream, ps);
              && d.Ok? && d.value.stream == ReadMembers(cls.members, stream).value.1 && SameStacks(d.value.parameters, ps)
              && d.value.result == Object(cls.name, ClassFields(cls, base, ps, first, second))
  {
    var p := Prefix(cls);
    first, second := map[], map[];
    assert cls.members == cls.members[..p] + cls.members[p..];
    ReadMembersAppend(cls.members[..p], cls.members[p..], stream);
    ClassReads(cls, base, stream, ps);
    var r := ReadMembers(cls.members[..p], stream);
    if r.Ok? {
      first := r.value.0;
      ReadMembersKeys(cls.members[..p], stream);
      ReadMembersKeys(cls.members[p..], r.value.1);
      ArgumentsSupplied(cls, base, first, ps);
      ClassRunFrom(cls, base, stream, ps, first, r.value.1);
      var q := ReadMembers(cls.members[p..], r.value.1);
      if q.Ok? {
        second := q.value.0;
      }
    }
  }

  /** A member has the value that was read. */
  lemma LiveField(cls: Class, base: Option<Class>, ps: Parameters, first: map<string, Value>, second: map<string, Value>, n: string)
    requires ClassOk(cls, base) && n in LiveNames(cls.members)
    requires first.Keys == LiveNames(cls.members[..Prefix(cls)]) && second.Keys == LiveNames(cls.members[Prefix(cls)..])
    requires forall a :: a in ConstructorArguments(cls, base, cls.constructorEntries).value ==> Supplied(a, first, ps)
    ensures n in ClassFields(cls, base, ps, first, second) && n in first + second
    ensures ClassFields(cls, base, ps, first, second)[n] == (first + second)[n]
  {
    var arguments := ConstructorArguments(cls, base, cls.constructorEntries).value;
    if n !in second {
      FirstHalf(cls, n);
      MemberBound(cls, base, first, ps, n);
    }
    Layered(cls.fixed, Bound(arguments, first, ps), Restrict(first, KeptNames(cls, Prefix(cls))), second, first, n);
  }

  lemma FirstHalf(cls: Class, n: string)
    requires cls.DataClass? && n in LiveNames(cls.members) && n !in LiveNames(cls.members[Prefix(cls)..])
    ensures n in LiveNames(cls.members[..Prefix(cls)]) && n in Names(cls.members)
    ensures n !in EntryNames(cls.constructorEntries) ==> n in KeptNames(cls, Prefix(cls))
    ensures n in EntryNames(cls.constructorEntries) ==> n !in KeptNames(cls, Prefix(cls))
  {
    var p := Prefix(cls);
    assert cls.members == cls.members[..p] + cls.members[p..];
    var m :| m in cls.members && Live(m) && m.name == n;
    assert m in cls.members[..p];
  }

  lemma Layered(a: map<string, Value>, b: map<string, Value>, c: map<string, Value>, d: map<string, Value>,
                first: map<string, Value>, n: string)
    requires n in d || (n in first && if n in c then c[n] == first[n] else n in b && b[n] == first[n])
    ensures n in a + b + c + d && n in first + d && (a + b + c + d)[n] == (first + d)[n]
  {
  }

  /** What the members do not cover comes from the context or is the constructor's own. */
  lemma OtherField(cls: Class, base: Option<Class>, ps: Parameters, first: map<string, Value>, second: map<string, Value>, n: string)
    requires ClassOk(cls, base) && n !in Names(cls.members)
    requires second.Keys == LiveNames(cls.members[Prefix(cls)..])
    requires forall a :: a in ConstructorArguments(cls, base, cls.constructorEntries).value ==> Supplied(a, first, ps)
    ensures n in cls.fixed && !Taken(cls, base, n) ==> ClassFields(cls, base, ps, first, second)[n] == cls.fixed[n]
    ensures Taken(cls, base, n) ==>
              n in ClassFields(cls, base, ps, first, second) &&
              Top(ps, BaseParameters(base)[FindMember(BaseParameters(base), n).value].typ)
              == Some(ClassFields(cls, base, ps, first, second)[n])
  {
    assert KeptNames(cls, Prefix(cls)) <= Names(cls.members);
    assert LiveNames(cls.members[Prefix(cls)..]) <= Names(cls.members);
    ParameterBound(cls, base, first, ps, n);
  }

  /** The constructor gets this parameter of the base class from the context. */
  predicate Taken(cls: Class, base: Option<Class>, name: string)
    requires cls.DataClass?
  {
    name in EntryNames(cls.constructorEntries) && FindMember(BaseParameters(base), name).Some?
  }

  // ----- round trip ----------------------------------------------------------------------------------------

  function DispatchNames(cls: Class): set<string>
    requires cls.BaseClass?
  {
    {cls.enumValue} + Names(cls.setParameters)
  }

  /** A schema tree whose generated code compiles, and in which every enum value and parameter of an ancestor,
      which its reader does not assign, is stored by the constructors below it. */
  ghost predicate WellFormed(cls: Class, base: Option<Class>, owed: set<string>)
    decreases cls
  {
    (forall m :: m in cls.members ==> SchemaMember(m)) &&
    if cls.BaseClass? then
      BaseOk(cls) && forall k :: 0 <= k < |cls.children| ==>
        WellFormed(cls.children[k].cls, Some(cls), owed + DispatchNames(cls))
    else
      ClassOk(cls, base) && forall n :: n in owed ==> n in cls.fixed || Taken(cls, base, n)
  }

  /** The path to the class of an object: each enum value leads to the next class. */
  ghost predicate IsPath(chain: seq<Class>, fields: map<string, Value>) {
    |chain| > 0 && chain[|chain| - 1].DataClass? &&
    forall i :: 0 <= i < |chain| - 1 ==>
      chain[i].BaseClass? && chain[i].enumValue in fields && 
      LeadsTo(chain[i], fields[chain[i].enumValue], chain[i + 1])
  }

  ghost predicate LeadsTo(cls: Class, value: Value, child: Class)
    requires cls.BaseClass?
  {
    exists k :: 0 <= k < |cls.children| && cls.children[k].enumEntry == value && cls.children[k].cls == child
  }

  /** An object of the last class of the path: it has the members of the path, and the values its constructor
      always stores. */
  ghost predicate IsObject(chain: seq<Class>, base: Option<Class>, fields: map<string, Value>) {
    IsPath(chain, fields) && LiveNames(MembersOf(chain)) <= fields.Keys &&
    var cls := chain[|chain| - 1];
    var parent := if |chain| > 1 then Some(chain[|chain| - 2]) else base;
    forall n :: n in cls.fixed && n !in Names(cls.members) && !Taken(cls, parent, n) ==> n in fields && fields[n] == cls.fixed[n]
  }

  ghost predicate Restores(chain: seq<Class>, restored: map<string, Value>, fields: map<string, Value>)
    requires LiveNames(MembersOf(chain)) <= fields.Keys
  {
    forall n :: n in LiveNames(MembersOf(chain)) ==> n in restored && restored[n] == fields[n]
  }

  ghost predicate AllKept(members: seq<MemberVariable>, fields: map<string, Value>, options: Options) {
    forall m :: m in members && Live(m) ==> Kept(m, fields, options)
  }

  /** The members that steer the reader survive. */
  ghost predicate DispatchKept(chain: seq<Class>, fields: map<string, Value>, options: Options) {
    forall i, m :: 0 <= i < |chain| && m in chain[i].members && chain[i].BaseClass? && IsDispatch(chain[i], m) && Live(m) ==>
      Kept(m, fields, options)
  }

  /** The context values that the constructor of the last class demands and no base class sets. */
  ghost predicate ContextGiven(cls: Class, base: Option<Class>, ps: Parameters) {
    cls.DataClass? && ConstructorArguments(cls, base, cls.constructorEntries).Ok? &&
    forall a :: a in ConstructorArguments(cls, base, cls.constructorEntries).value && a.FromContext? ==> Supplied(a, map[], ps)
  }

  lemma {:induction false} WriteOpsAppend(a: seq<WriteOp>, b: seq<WriteOp>, fields: map<string, Value>, options: Options)
    requires Writable(a, fields) && Writable(b, fields)
    ensures Writable(a + b, fields)
    ensures WriteAll(a + b, fields, options) == WriteAll(a, fields, options) + WriteAll(b, fields, options)
  {
    if a == [] {
      assert a + b == b;
    } else {
      WriteOpsAppend(a[1..], b, fields, options);
      assert (a + b)[0] == a[0] && (a + b)[1..] == a[1..] + b;
      WriteFirst(a + b, fields, options);
      WriteFirst(a, fields, options);
    }
  }

  lemma WriteFirst(ops: seq<WriteOp>, fields: map<string, Value>, options: Options)
    requires ops != [] && (ops[0].how != Never ==> ops[0].name in fields) && Writable(ops[1..], fields)
    ensures Writable(ops, fields) && WriteAll(ops, fields, options) == Write(ops[0], fields, options) + WriteAll(ops[1..], fields, options)
  {
    assert forall i :: 0 < i < |ops| ==> ops[i] == ops[1..][i - 1];
  }

  lemma WriteAllAppend(a: seq<MemberVariable>, b: seq<MemberVariable>, fields: map<string, Value>, options: Options)
    requires Writable(Writes(a), fields) && Writable(Writes(b), fields)
    ensures Writable(Writes(a + b), fields)
    ensures WriteAll(Writes(a + b), fields, options) == WriteAll(Writes(a), fields, options) + WriteAll(Writes(b), fields, options)
  {
    assert Writes(a + b) == Writes(a) + Writes(b);
    WriteOpsAppend(Writes(a), Writes(b), fields, options);
  }

  lemma LiveWritable(members: seq<MemberVariable>, fields: map<string, Value>)
    requires LiveNames(members) <= fields.Keys
    ensures Writable(Writes(members), fields)
  {
    forall i | 0 <= i < |members| && Live(members[i])
      ensures members[i].name in fields
    {
      assert members[i].name in LiveNames(members);
    }
  }

  lemma {:induction false} MembersOfFront(chain: seq<Class>)
    requires chain != []
    ensures MembersOf(chain) == MembersOf(chain[..|chain| - 1]) + chain[|chain| - 1].members
  {
    if |chain| > 1 {
      assert chain[1..][..|chain| - 2] == chain[..|chain| - 1][1..];
      MembersOfFront(chain[1..]);
    }
  }

  lemma {:induction false} PathWritable(chain: seq<Class>, fields: map<string, Value>, i: nat)
    requires LiveNames(MembersOf(chain)) <= fields.Keys && i < |chain|
    ensures Writable(Writes(chain[i].members), fields)
  {
    assert LiveNames(chain[i].members) <= LiveNames(MembersOf(chain)) by {
      forall m | m in chain[i].members
        ensures m in MembersOf(chain)
      {
        MembersInPath(chain, i, m);
      }
    }
    LiveWritable(chain[i].members, fields);
  }

  /** The writers of a class and of its bases together write the members of the path in order. */
  lemma {:induction false} SerializeInOrder(chain: seq<Class>, fields: map<string, Value>, options: Options)
    requires LiveNames(MembersOf(chain)) <= fields.Keys
    ensures forall i :: 0 <= i < |chain| ==> Writable(Writes(chain[i].members), fields)
    ensures Writable(Writes(MembersOf(chain)), fields)
    ensures Serialize(chain, fields, options) == WriteAll(Writes(MembersOf(chain)), fields, options)
  {
    LiveWritable(MembersOf(chain), fields);
    forall i | 0 <= i < |chain|
      ensures Writable(Writes(chain[i].members), fields)
    {
      PathWritable(chain, fields, i);
    }
    if chain != [] {
      var before, last := chain[..|chain| - 1], chain[|chain| - 1];
      MembersOfFront(chain);
      SplitLevels(MembersOf(before), last.members, map[], fields, options);
      SerializeInOrder(before, fields, options);
      WriteAllAppend(MembersOf(before), last.members, fields, options);
    }
  }

  /** The reader either fails or leaves the context as it was and stops at the end of the object; it has
      restored the members iff all of them survive. */
  ghost predicate ReadsObject(chain: seq<Class>, d: Result<Reply>, owed: set<string>, fields: map<string, Value>, options: Options,
                              tail: seq<Token>, ps: Parameters)
    requires chain != [] && LiveNames(MembersOf(chain)) <= fields.Keys && owed <= fields.Keys
  {
    (d.Err? ==> !AllKept(MembersOf(chain), fields, options)) &&
    (d.Ok? ==>
       d.value.stream == tail && SameStacks(d.value.parameters, ps) && d.value.result.className == chain[|chain| - 1].name &&
       Agree(d.value.result.fields, fields, owed) &&
       (Restores(chain, d.value.result.fields, fields) <==> AllKept(MembersOf(chain), fields, options)))
  }

  ghost predicate Agree(a: map<string, Value>, b: map<string, Value>, names: set<string>) {
    forall n :: n in names ==> n in a && n in b && a[n] == b[n]
  }

  /** What one class reads: the values of its members, each right iff it survives. */
  ghost predicate LevelRead(cls: Class, values: map<string, Value>, fields: map<string, Value>, options: Options)
    requires LiveNames(cls.members) <= fields.Keys
  {
    values.Keys == LiveNames(cls.members) &&
    forall m :: m in cls.members && Live(m) ==> (m.name in values && (values[m.name] == fields[m.name] <==> Kept(m, fields, options)))
  }

  lemma ReadLevel(cls: Class, names: set<string>, ids: set<nat>, fields: map<string, Value>, options: Options, tail: seq<Token>)
    requires (forall m :: m in cls.members ==> SchemaMember(m)) && LiveNames(cls.members) <= fields.Keys
    requires Unseen(cls.members, names, ids) && HeadOutside(tail, Ids(cls.members))
    ensures Writable(Writes(cls.members), fields)
    ensures var r := ReadMembers(cls.members, WriteAll(Writes(cls.members), fields, options) + tail);
            && (r.Err? ==> !AllKept(cls.members, fields, options))
            && (r.Ok? ==> r.value.1 == tail && LevelRead(cls, r.value.0, fields, options))
  {
    LiveWritable(cls.members, fields);
    forall m | m in cls.members && Live(m)
      ensures m.name in fields
    {
      assert m.name in LiveNames(cls.members);
    }
    LevelReadBack(cls.members, names, ids, fields, options, tail);
    var r := ReadMembers(cls.members, WriteAll(Writes(cls.members), fields, options) + tail);
    if r.Err? {
      var m :| m in cls.members && IsMissing(m, options);
      assert !Kept(m, fields, options);
    }
  }

  /** The reader of a class stores the values it reads and what the classes above it do not assign. */
  lemma ReadClass(cls: Class, base: Option<Class>, names: set<string>, ids: set<nat>, owed: set<string>,
                  fields: map<string, Value>, stream: seq<Token>, ps: Parameters)
    requires cls.DataClass? && WellFormed(cls, base, owed) && Unseen(cls.members, names, ids) && owed <= names
    requires ParametersSet(base, fields, ps) && IsObject([cls], base, fields) && ContextGiven(cls, base, ps)
    ensures ReadMembers(cls.members, stream).Err? ==> Deserialize(cls, base, stream, ps).Err?
    ensures ReadMembers(cls.members, stream).Ok? ==>
              var (values, rest) := ReadMembers(cls.members, stream).value;
              var d := Deserialize(cls, base, stream, ps);
              && d.Ok? && d.value.stream == rest && SameStacks(d.value.parameters, ps) && d.value.result.className == cls.name
              && Agree(d.value.result.fields, fields, owed) && Agree(d.value.result.fields, values, LiveNames(cls.members))
  {
    ContextIsReady(cls, base, fields, ps);
    var first, second := ClassRun(cls, base, stream, ps);
    if ReadMembers(cls.members, stream).Ok? {
      var got := Deserialize(cls, base, stream, ps).value.result.fields;
      UnseenIffDistinct(cls.members, names, ids);
      forall n | n in owed
        ensures n in got && n in fields && got[n] == fields[n]
      {
        OwedField(cls, base, ps, first, second, fields, n);
      }
      forall n | n in LiveNames(cls.members)
        ensures n in got && n in first + second && got[n] == (first + second)[n]
      {
        LiveField(cls, base, ps, first, second, n);
      }
    }
  }

  /** The class at the end of the path. */
  lemma LastClassBack(cls: Class, base: Option<Class>, names: set<string>, ids: set<nat>, owed: set<string>,
                      fields: map<string, Value>, options: Options, tail: seq<Token>, ps: Parameters)
    requires cls.DataClass? && WellFormed(cls, base, owed) && Unseen(cls.members, names, ids) && owed <= names
    requires IsObject([cls], base, fields) && owed <= fields.Keys
    requires ParametersSet(base, fields, ps) && ContextGiven(cls, base, ps)
    requires HeadOutside(tail, Ids(cls.members))
    ensures LiveNames(cls.members) <= fields.Keys && Writable(Writes(cls.members), fields)
    ensures ReadsObject([cls], Deserialize(cls, base, WriteAll(Writes(cls.members), fields, options) + tail, ps), owed, fields,
                        options, tail, ps)
  {
    OneClass(cls);
    ReadLevel(cls, names, ids, fields, options, tail);
    var stream := WriteAll(Writes(cls.members), fields, options) + tail;
    ReadClass(cls, base, names, ids, owed, fields, stream, ps);
    LastClassConcludes(cls, Deserialize(cls, base, stream, ps), ReadMembers(cls.members, stream), owed, fields, options, tail, ps);
  }

  lemma LastClassConcludes(cls: Class, d: Result<Reply>, r: Result<(map<string, Value>, seq<Token>)>, owed: set<string>,
                           fields: map<string, Value>, options: Options, tail: seq<Token>, ps: Parameters)
    requires LiveNames(cls.members) <= fields.Keys && owed <= fields.Keys && MembersOf([cls]) == cls.members
    requires r.Err? ==> d.Err? && !AllKept(cls.members, fields, options)
    requires r.Ok? ==> r.value.1 == tail && LevelRead(cls, r.value.0, fields, options)
    requires r.Ok? ==> d.Ok? && d.value.stream == tail && SameStacks(d.value.parameters, ps) && d.value.result.className == cls.name
    requires r.Ok? ==> Agree(d.value.result.fields, fields, owed) && Agree(d.value.result.fields, r.value.0, LiveNames(cls.members))
    ensures ReadsObject([cls], d, owed, fields, options, tail, ps)
  {
    if r.Ok? {
      LevelRestores(cls.members, d.value.result.fields, r.value.0, fields, options);
    }
  }

  lemma OwedField(cls: Class, base: Option<Class>, ps: Parameters, first: map<string, Value>, second: map<string, Value>,
                  fields: map<string, Value>, n: string)
    requires ClassOk(cls, base) && n !in Names(cls.members) && (n in cls.fixed || Taken(cls, base, n))
    requires second.Keys == LiveNames(cls.members[Prefix(cls)..])
    requires forall a :: a in ConstructorArguments(cls, base, cls.constructorEntries).value ==> Supplied(a, first, ps)
    requires ParametersSet(base, fields, ps) && IsObject([cls], base, fields)
    ensures n in ClassFields(cls, base, ps, first, second) && n in fields
    ensures ClassFields(cls, base, ps, first, second)[n] == fields[n]
  {
    OtherField(cls, base, ps, first, second, n);
    if Taken(cls, base, n) {
      var k := FindMember(BaseParameters(base), n).value;
      assert Top(ps, BaseParameters(base)[k].typ) == Some(fields[BaseParameters(base)[k].name]);
    }
  }

  lemma OneClass(cls: Class)
    ensures MembersOf([cls]) == cls.members
  {
    assert [cls][1..] == [];
    assert MembersOf([cls]) == cls.members + MembersOf([]);
  }

  lemma LevelRestores(members: seq<MemberVariable>, got: map<string, Value>, values: map<string, Value>, fields: map<string, Value>,
                      options: Options)
    requires LiveNames(members) <= fields.Keys && LiveNames(members) <= values.Keys
    requires forall n :: n in LiveNames(members) ==> n in got && got[n] == values[n]
    requires forall m :: m in members && Live(m) ==> (m.name in values && (values[m.name] == fields[m.name] <==> Kept(m, fields, options)))
    ensures (forall n :: n in LiveNames(members) ==> n in got && got[n] == fields[n]) <==> AllKept(members, fields, options)
  {
    if forall n :: n in LiveNames(members) ==> n in got && got[n] == fields[n] {
      forall m | m in members && Live(m)
        ensures Kept(m, fields, options)
      {
        assert m.name in LiveNames(members);
      }
    }
  }

  /** The parameters of the base class are on top of the context. */
  ghost predicate ParametersSet(base: Option<Class>, fields: map<string, Value>, ps: Parameters) {
    forall i :: 0 <= i < |BaseParameters(base)| ==>
      var p := BaseParameters(base)[i];
      p.name in fields && Top(ps, p.typ) == Some(fields[p.name])
  }

  lemma ContextIsReady(cls: Class, base: Option<Class>, fields: map<string, Value>, ps: Parameters)
    requires ClassOk(cls, base) && ContextGiven(cls, base, ps) && ParametersSet(base, fields, ps)
    ensures ContextReady(cls, base, ps)
  {
    forall a | a in ConstructorArguments(cls, base, cls.constructorEntries).value && !a.FromLocal?
      ensures Supplied(a, map[], ps)
    {
      EntryOfArgument(cls, base, a);
      if a.FromParameter? {
        var k := FindMember(BaseParameters(base), a.name).value;
        assert Top(ps, BaseParameters(base)[k].typ).Some?;
      }
    }
  }

  /** A base class: what the classes below restore, with its own members assigned over it. */
  lemma BaseClassConcludes(chain: seq<Class>, values: map<string, Value>, q: Reply, got: map<string, Value>, owed: set<string>,
                           fields: map<string, Value>, options: Options, tail: seq<Token>, ps: Parameters, pushed: Parameters)
    requires |chain| > 1 && chain[0].BaseClass? && LiveNames(MembersOf(chain)) <= fields.Keys
    requires owed + DispatchNames(chain[0]) <= fields.Keys
    requires LiveNames(MembersOf(chain[1..])) <= fields.Keys && LiveNames(chain[0].members) <= fields.Keys
    requires Names(MembersOf(chain[1..])) !! Names(chain[0].members) && owed !! Names(chain[0].members)
    requires LevelRead(chain[0], values, fields, options)
    requires ReadsObject(chain[1..], Ok(q), owed + DispatchNames(chain[0]), fields, options, tail, pushed)
    requires got == q.result.fields + Restrict(values, AssignedNames(chain[0], chain[0].members))
    requires forall m :: m in chain[0].members && Live(m) && IsDispatch(chain[0], m) ==> Kept(m, fields, options)
    ensures Agree(got, fields, owed)
    ensures Restores(chain, got, fields) <==> AllKept(MembersOf(chain), fields, options)
  {
    var cls, below := chain[0], MembersOf(chain[1..]);
    var layer := Restrict(values, AssignedNames(cls, cls.members));
    assert layer.Keys <= Names(cls.members);
    OwnMembers(cls, values, q.result.fields, fields, options);
    LevelRestores(cls.members, got, values, fields, options);
    LaterMembers(q.result.fields, layer, LiveNames(below), fields);
    SplitLevels(cls.members, below, got, fields, options);
  }

  lemma OwnMembers(cls: Class, values: map<string, Value>, lower: map<string, Value>, fields: map<string, Value>, options: Options)
    requires cls.BaseClass? && LiveNames(cls.members) <= fields.Keys && LevelRead(cls, values, fields, options)
    requires Agree(lower, fields, DispatchNames(cls))
    requires forall m :: m in cls.members && Live(m) && IsDispatch(cls, m) ==> Kept(m, fields, options)
    ensures var got := lower + Restrict(values, AssignedNames(cls, cls.members));
            forall n :: n in LiveNames(cls.members) ==> n in got && got[n] == values[n]
  {
    forall n | n in LiveNames(cls.members)
      ensures n in lower + Restrict(values, AssignedNames(cls, cls.members))
      ensures (lower + Restrict(values, AssignedNames(cls, cls.members)))[n] == values[n]
    {
      var m :| m in cls.members && Live(m) && m.name == n;
      if IsDispatch(cls, m) {
        assert n in DispatchNames(cls);
        assert n !in AssignedNames(cls, cls.members);
      } else {
        assert n in AssignedNames(cls, cls.members);
      }
    }
  }

  lemma LaterMembers(lower: map<string, Value>, layer: map<string, Value>, names: set<string>, fields: map<string, Value>)
    requires names !! layer.Keys && names <= fields.Keys
    ensures (forall n :: n in names ==> n in lower + layer && (lower + layer)[n] == fields[n])
            <==> forall n :: n in names ==> n in lower && lower[n] == fields[n]
  {
    assert forall n :: n in names ==> (n in lower + layer <==> n in lower) && (n in lower ==> (lower + layer)[n] == lower[n]);
  }

  lemma SplitLevels(own: seq<MemberVariable>, below: seq<MemberVariable>, got: map<string, Value>, fields: map<string, Value>,
                    options: Options)
    requires LiveNames(own + below) <= fields.Keys
    ensures LiveNames(own + below) == LiveNames(own) + LiveNames(below)
    ensures AllKept(own + below, fields, options) <==> AllKept(own, fields, options) && AllKept(below, fields, options)
    ensures (forall n :: n in LiveNames(own + below) ==> n in got && got[n] == fields[n]) <==>
            (forall n :: n in LiveNames(own) ==> n in fields && n in got && got[n] == fields[n]) &&
            (forall n :: n in LiveNames(below) ==> n in fields && n in got && got[n] == fields[n])
  {
    assert LiveNames(own + below) == LiveNames(own) + LiveNames(below);
  }

  lemma DispatchValues(cls: Class, values: map<string, Value>, fields: map<string, Value>, options: Options)
    requires BaseOk(cls) && LiveNames(cls.members) <= fields.Keys && LevelRead(cls, values, fields, options)
    requires forall m :: m in cls.members && Live(m) && IsDispatch(cls, m) ==> Kept(m, fields, options)
    ensures forall n :: n in DispatchNames(cls) ==> n in values && n in fields && values[n] == fields[n]
  {
    forall n | n in DispatchNames(cls)
      ensures n in values && n in fields && values[n] == fields[n]
    {
      assert n in LiveNames(cls.members);
      var m :| m in cls.members && Live(m) && m.name == n;
      assert IsDispatch(cls, m);
    }
  }

  /** The parameters a base class sets are the values of the object. */
  lemma ParametersAreSet(cls: Class, values: map<string, Value>, fields: map<string, Value>, ps: Parameters)
    requires BaseOk(cls) && Names(cls.setParameters) <= values.Keys
    requires forall n :: n in DispatchNames(cls) ==> n in values && n in fields && values[n] == fields[n]
    ensures ParametersSet(Some(cls), fields, PushAll(cls.setParameters, values, ps))
  {
    forall i | 0 <= i < |cls.setParameters|
      ensures cls.setParameters[i].name in fields
      ensures Top(PushAll(cls.setParameters, values, ps), cls.setParameters[i].typ) == Some(fields[cls.setParameters[i].name])
    {
      assert cls.setParameters[i].name in Names(cls.setParameters);
      TopAfterPush(cls.setParameters, values, ps, i);
    }
  }

  lemma ContextStaysGiven(cls: Class, base: Option<Class>, list: seq<MemberVariable>, values: map<string, Value>, ps: Parameters)
    requires Names(list) <= values.Keys && ContextGiven(cls, base, ps)
    ensures ContextGiven(cls, base, PushAll(list, values, ps))
  {
    forall a | a in ConstructorArguments(cls, base, cls.constructorEntries).value && a.FromContext?
      ensures Supplied(a, map[], PushAll(list, values, ps))
    {
      assert Supplied(a, map[], ps);
      if Top(ps, a.typ).Some? {
        PushKeepsAvailable(list, values, ps, a.typ);
      }
    }
  }

  function Parent(chain: seq<Class>, base: Option<Class>): Option<Class>
    requires chain != []
  {
    if |chain| > 1 then Some(chain[|chain| - 2]) else base
  }

  /** Everything that is asked of a path, an object and a context. */
  ghost predicate Given(chain: seq<Class>, base: Option<Class>, names: set<string>, ids: set<nat>, owed: set<string>,
                        fields: map<string, Value>, options: Options, ps: Parameters)
  {
    IsObject(chain, base, fields) && WellFormed(chain[0], base, owed) && PathsDistinct(chain[0], names, ids) &&
    owed <= names && owed <= fields.Keys && ParametersSet(base, fields, ps) &&
    ContextGiven(chain[|chain| - 1], Parent(chain, base), ps) && DispatchKept(chain, fields, options)
  }

  lemma GivenBelow(chain: seq<Class>, base: Option<Class>, names: set<string>, ids: set<nat>, owed: set<string>,
                   fields: map<string, Value>, options: Options, ps: Parameters, values: map<string, Value>) returns (k: nat)
    requires |chain| > 1 && Given(chain, base, names, ids, owed, fields, options, ps)
    requires LiveNames(chain[0].members) <= fields.Keys && LevelRead(chain[0], values, fields, options)
    ensures chain[0].BaseClass? && BaseOk(chain[0]) && chain[0].enumValue in values && Names(chain[0].setParameters) <= values.Keys
    ensures k < |chain[0].children| && chain[0].children[k].cls == chain[1]
    ensures chain[0].children[k].enumEntry == values[chain[0].enumValue]
    ensures Given(chain[1..], Some(chain[0]), names + Names(chain[0].members), ids + Ids(chain[0].members),
                  owed + DispatchNames(chain[0]), fields, options, PushAll(chain[0].setParameters, values, ps))
  {
    var cls := chain[0];
    assert LeadsTo(chain[0], fields[cls.enumValue], chain[1]);
    k :| 0 <= k < |cls.children| && cls.children[k].enumEntry == fields[cls.enumValue] && cls.children[k].cls == chain[1];
    DispatchValues(cls, values, fields, options);
    ParametersAreSet(cls, values, fields, ps);
    PathBelow(chain, base, fields, options);
    ContextStaysGiven(chain[|chain| - 1], Parent(chain, base), cls.setParameters, values, ps);
    assert DispatchNames(cls) <= LiveNames(cls.members) <= Names(cls.members);
  }

  lemma PathBelow(chain: seq<Class>, base: Option<Class>, fields: map<string, Value>, options: Options)
    requires |chain| > 1 && IsObject(chain, base, fields) && DispatchKept(chain, fields, options)
    ensures IsObject(chain[1..], Some(chain[0]), fields) && DispatchKept(chain[1..], fields, options)
  {
    var rest := chain[1..];
    assert MembersOf(chain) == chain[0].members + MembersOf(rest);
    assert LiveNames(MembersOf(rest)) <= LiveNames(MembersOf(chain));
    forall i | 0 <= i < |rest| - 1
      ensures rest[i].BaseClass? && rest[i].enumValue in fields && LeadsTo(rest[i], fields[rest[i].enumValue], rest[i + 1])
    {
      assert rest[i] == chain[i + 1] && rest[i + 1] == chain[i + 2];
    }
    assert IsPath(rest, fields);
    forall i, m | 0 <= i < |rest| && m in rest[i].members && rest[i].BaseClass? && IsDispatch(rest[i], m) && Live(m)
      ensures Kept(m, fields, options)
    {
      assert rest[i] == chain[i + 1];
    }
  }

  lemma {:induction false} ReadBackFrom(chain: seq<Class>, base: Option<Class>, names: set<string>, ids: set<nat>, owed: set<string>,
                                       fields: map<string, Value>, options: Options, tail: seq<Token>, ps: Parameters)
    requires Given(chain, base, names, ids, owed, fields, options, ps) && tail != [] && tail[0] == End
    ensures Writable(Writes(MembersOf(chain)), fields)
    ensures ReadsObject(chain, Deserialize(chain[0], base, WriteAll(Writes(MembersOf(chain)), fields, options) + tail, ps),
                        owed, fields, options, tail, ps)
    decreases |chain|
  {
    if |chain| == 1 {
      assert chain == [chain[0]];
      OneClass(chain[0]);
      LastClassBack(chain[0], base, names, ids, owed, fields, options, tail, ps);
    } else {
      var stream := FirstLevel(chain, base, names, ids, owed, fields, options, tail, ps);
      var whole := WriteAll(Writes(MembersOf(chain)), fields, options) + tail;
      ReadBackThrough(chain, base, names, ids, owed, fields, options, tail, ps, whole, stream);
    }
  }

  /** What the first class of a longer path reads, and what it leaves in the stream. */
  lemma FirstLevel(chain: seq<Class>, base: Option<Class>, names: set<string>, ids: set<nat>, owed: set<string>,
                   fields: map<string, Value>, options: Options, tail: seq<Token>, ps: Parameters) returns (stream: seq<Token>)
    requires |chain| > 1 && Given(chain, base, names, ids, owed, fields, options, ps) && tail != [] && tail[0] == End
    ensures Writable(Writes(MembersOf(chain)), fields) && Writable(Writes(MembersOf(chain[1..])), fields)
    ensures Names(MembersOf(chain[1..])) !! Names(chain[0].members) && owed !! Names(chain[0].members)
    ensures LiveNames(chain[0].members) <= fields.Keys
    ensures stream == WriteAll(Writes(MembersOf(chain[1..])), fields, options) + tail
    ensures var r := ReadMembers(chain[0].members, WriteAll(Writes(MembersOf(chain)), fields, options) + tail);
            && (r.Err? ==> !AllKept(chain[0].members, fields, options))
            && (r.Ok? ==> r.value.1 == stream && LevelRead(chain[0], r.value.0, fields, options))
  {
    var cls, below := chain[0], MembersOf(chain[1..]);
    assert MembersOf(chain) == cls.members + below;
    stream := WriteInTwo(cls.members, below, fields, options, tail);
    BelowApart(chain, base, names, ids, owed, fields, options, ps);
    WriteAllHead(below, fields, options, tail, Ids(cls.members));
    ReadLevel(cls, names, ids, fields, options, stream);
  }

  lemma WriteInTwo(own: seq<MemberVariable>, below: seq<MemberVariable>, fields: map<string, Value>, options: Options, tail: seq<Token>)
    returns (stream: seq<Token>)
    requires LiveNames(own + below) <= fields.Keys
    ensures LiveNames(own) <= fields.Keys && LiveNames(below) <= fields.Keys
    ensures Writable(Writes(own + below), fields) && Writable(Writes(own), fields) && Writable(Writes(below), fields)
    ensures stream == WriteAll(Writes(below), fields, options) + tail
    ensures WriteAll(Writes(own + below), fields, options) + tail == WriteAll(Writes(own), fields, options) + stream
  {
    assert LiveNames(own + below) == LiveNames(own) + LiveNames(below);
    LiveWritable(own, fields);
    LiveWritable(below, fields);
    WriteAllAppend(own, below, fields, options);
    stream := WriteAll(Writes(below), fields, options) + tail;
    assert WriteAll(Writes(own), fields, options) + WriteAll(Writes(below), fields, options) + tail
        == WriteAll(Writes(own), fields, options) + stream;
  }

  /** The members below a class have other names and ids. */
  lemma BelowApart(chain: seq<Class>, base: Option<Class>, names: set<string>, ids: set<nat>, owed: set<string>,
                   fields: map<string, Value>, options: Options, ps: Parameters)
    requires |chain| > 1 && Given(chain, base, names, ids, owed, fields, options, ps)
    ensures Names(MembersOf(chain[1..])) !! Names(chain[0].members) && Ids(MembersOf(chain[1..])) !! Ids(chain[0].members)
    ensures owed !! Names(chain[0].members)
  {
    var cls := chain[0];
    assert LeadsTo(cls, fields[cls.enumValue], chain[1]);
    var rest := chain[1..];
    assert IsDescent(rest) by {
      forall i | 0 <= i < |rest| - 1
        ensures rest[i].BaseClass? && exists k :: 0 <= k < |rest[i].children| && rest[i].children[k].cls == rest[i + 1]
      {
        assert rest[i] == chain[i + 1] && rest[i + 1] == chain[i + 2];
        assert LeadsTo(chain[i + 1], fields[chain[i + 1].enumValue], chain[i + 2]);
      }
    }
    DescentsUnseen(chain[1], rest, names + Names(cls.members), ids + Ids(cls.members));
    UnseenIffDistinct(MembersOf(rest), names + Names(cls.members), ids + Ids(cls.members));
    UnseenIffDistinct(cls.members, names, ids);
  }

  /** The induction step: through a base class. */
  lemma {:induction false} ReadBackThrough(chain: seq<Class>, base: Option<Class>, names: set<string>, ids: set<nat>, owed: set<string>,
                                          fields: map<string, Value>, options: Options, tail: seq<Token>, ps: Parameters,
                                          whole: seq<Token>, stream: seq<Token>)
    requires |chain| > 1 && Given(chain, base, names, ids, owed, fields, options, ps) && tail != [] && tail[0] == End
    requires Names(MembersOf(chain[1..])) !! Names(chain[0].members) && owed !! Names(chain[0].members)
    requires LiveNames(chain[0].members) <= fields.Keys
    requires Writable(Writes(MembersOf(chain[1..])), fields) && stream == WriteAll(Writes(MembersOf(chain[1..])), fields, options) + tail
    requires ReadMembers(chain[0].members, whole).Err? ==> !AllKept(chain[0].members, fields, options)
    requires ReadMembers(chain[0].members, whole).Ok? ==>
               ReadMembers(chain[0].members, whole).value.1 == stream &&
               LevelRead(chain[0], ReadMembers(chain[0].members, whole).value.0, fields, options)
    ensures ReadsObject(chain, Deserialize(chain[0], base, whole, ps), owed, fields, options, tail, ps)
    decreases |chain|, 0
  {
    var cls := chain[0];
    assert MembersOf(chain) == cls.members + MembersOf(chain[1..]);
    SplitLevels(cls.members, MembersOf(chain[1..]), map[], fields, options);
    var r := ReadMembers(cls.members, whole);
    if r.Err? {
      BaseReads(cls, base, whole, ps);
    } else {
      var values := r.value.0;
      var k := GivenBelow(chain, base, names, ids, owed, fields, options, ps, values);
      var pushed := PushAll(cls.setParameters, values, ps);
      ReadBackFrom(chain[1..], Some(cls), names + Names(cls.members), ids + Ids(cls.members), owed + DispatchNames(cls),
                   fields, options, tail, pushed);
      BaseRun(cls, base, whole, ps, values, stream, k);
      var q := Deserialize(cls.children[k].cls, Some(cls), stream, pushed);
      if q.Ok? {
        var d := Deserialize(cls, base, whole, ps);
        assert forall m :: m in cls.members && Live(m) && IsDispatch(cls, m) ==> Kept(m, fields, options);
        BaseClassConcludes(chain, values, q.value, d.value.result.fields, owed, fields, options, tail, ps, pushed);
      }
    }
  }

  /** The main result. Running the generated reader of the root class on what the generated writers of an
      object have written, the end of the object and anything after it: if the members that steer the reader
      survive, every member that is not deleted is restored exactly if every member survives, that is, is
      written for the target version or has its default value. The context is left as it was and the stream
      stands at the end of the object. */
  lemma RestoredIffKept(chain: seq<Class>, fields: map<string, Value>, options: Options, after: seq<Token>, ps: Parameters)
    requires IsObject(chain, None, fields) && WellFormed(chain[0], None, {}) && PathsDistinct(chain[0], {}, {})
    requires ContextGiven(chain[|chain| - 1], Parent(chain, None), ps) && DispatchKept(chain, fields, options)
    ensures forall i :: 0 <= i < |chain| ==> Writable(Writes(chain[i].members), fields)
    ensures var d := Deserialize(chain[0], None, Serialize(chain, fields, options) + ([End] + after), ps);
            && (d.Ok? ==> d.value.stream == [End] + after && SameStacks(d.value.parameters, ps)
                          && d.value.result.className == chain[|chain| - 1].name)
            && (d.Ok? && Restores(chain, d.value.result.fields, fields) <==> AllKept(MembersOf(chain), fields, options))
  {
    SerializeInOrder(chain, fields, options);
    ReadBackFrom(chain, None, {}, {}, {}, fields, options, [End] + after, ps);
  }

  /** Written for a target version that has all members, every object comes back. */
  lemma RoundTrip(chain: seq<Class>, fields: map<string, Value>, options: Options, after: seq<Token>, ps: Parameters)
    requires IsObject(chain, None, fields) && WellFormed(chain[0], None, {}) && PathsDistinct(chain[0], {}, {})
    requires ContextGiven(chain[|chain| - 1], Parent(chain, None), ps)
    requires forall m :: m in MembersOf(chain) && Live(m) ==> GateOpen(m, options)
    ensures forall i :: 0 <= i < |chain| ==> Writable(Writes(chain[i].members), fields)
    ensures var d := Deserialize(chain[0], None, Serialize(chain, fields, options) + ([End] + after), ps);
            d.Ok? && Restores(chain, d.value.result.fields, fields) && d.value.stream == [End] + after
            && SameStacks(d.value.parameters, ps) && d.value.result.className == chain[|chain| - 1].name
  {
    forall i, m | 0 <= i < |chain| && m in chain[i].members && Live(m)
      ensures Kept(m, fields, options)
    {
      MembersInPath(chain, i, m);
    }
    RestoredIffKept(chain, fields, options, after, ps);
  }

  lemma {:induction false} MembersInPath(chain: seq<Class>, i: nat, m: MemberVariable)
    requires i < |chain| && m in chain[i].members
    ensures m in MembersOf(chain)
  {
    if i > 0 {
      MembersInPath(chain[1..], i - 1, m);
    }
  }

  /** An enum value that is not written for the target and is not the default: the reader fails, or it reads an object of
      another child. */
  lemma LostEnumValue(cls: Class, base: Option<Class>, names: set<string>, ids: set<nat>, fields: map<string, Value>,
                      options: Options, tail: seq<Token>, ps: Parameters, m: MemberVariable)
    requires BaseOk(cls) && (forall m :: m in cls.members ==> SchemaMember(m)) && LiveNames(cls.members) <= fields.Keys
    requires Unseen(cls.members, names, ids) && HeadOutside(tail, Ids(cls.members))
    requires m in cls.members && m.name == cls.enumValue && Live(m) && !Kept(m, fields, options)
    ensures Writable(Writes(cls.members), fields)
    ensures var d := Deserialize(cls, base, WriteAll(Writes(cls.members), fields, options) + tail, ps);
            d.Ok? ==> exists k, values: map<string, Value> ::
              0 <= k < |cls.children| && cls.children[k].enumEntry != fields[cls.enumValue] && values.Keys == LiveNames(cls.members) &&
              Deserialize(cls.children[k].cls, Some(cls), tail, PushAll(cls.setParameters, values, ps)).Ok?
  {
    ReadLevel(cls, names, ids, fields, options, tail);
    var stream := WriteAll(Writes(cls.members), fields, options) + tail;
    BaseReads(cls, base, stream, ps);
    if ReadMembers(cls.members, stream).Ok? {
      var values := ReadMembers(cls.members, stream).value.0;
      LostEnumLeavesPath(cls, base, stream, ps, values, tail, fields[cls.enumValue]);
    }
  }

  lemma LostEnumLeavesPath(cls: Class, base: Option<Class>, stream: seq<Token>, ps: Parameters, values: map<string, Value>,
                           rest: seq<Token>, value: Value)
    requires BaseOk(cls) && ReadMembers(cls.members, stream) == Ok((values, rest)) && values.Keys == LiveNames(cls.members)
    requires values[cls.enumValue] != value
    ensures Deserialize(cls, base, stream, ps).Ok? ==> exists k ::
              0 <= k < |cls.children| && cls.children[k].enumEntry != value &&
              Deserialize(cls.children[k].cls, Some(cls), rest, PushAll(cls.setParameters, values, ps)).Ok?
  {
    if k :| 0 <= k < |cls.children| && cls.children[k].enumEntry == values[cls.enumValue] {
      BaseRun(cls, base, stream, ps, values, rest, k);
    } else {
      NoCase(cls.children, values[cls.enumValue]);
      BaseReads(cls, base, stream, ps);
      RunDispatching(cls, values, rest, ps);
    }
  }

  /** The condition is needed: written for a target of version 1, an object whose member was added in
      version 2 comes back without the value of this member. */
  lemma NewerMemberIsLost(after: seq<Token>)
    ensures var m := MemberVariable(109, "dependencies", "LogicalDependencyList", true, Some(Other(0)), false, 2);
            var cls := DataClass("CreateInfo", [m], [], [], map[]);
            var fields := map["dependencies" := Other(1)];
            var d := Deserialize(cls, None, WriteAll(Writes([m]), fields, Options(false, 1)) + ([End] + after), map[]);
            !(d.Ok? && Restores([cls], d.value.result.fields, fields))
  {
    var m := MemberVariable(109, "dependencies", "LogicalDependencyList", true, Some(Other(0)), false, 2);
    var cls := DataClass("CreateInfo", [m], [], [], map[]);
    var fields := map["dependencies" := Other(1)];
    OneClass(cls);
    assert [m][1..] == [];
    assert AfterConstruction(cls, 1) == LaterCode(cls, 0);
    assert SetMembers(cls, 0) == [];
    SerializeInOrder([cls], fields, Options(false, 1));
    RestoredIffKept([cls], fields, Options(false, 1), after, map[]);
    assert m in MembersOf([cls]) && Live(m) && !Kept(m, fields, Options(false, 1));
  }
}
