/** The generator itself: the duplicate check and the code of base classes and of classes, emitted
    by loops over the members. */
module SerializationGenerator {
  import opened Common
  import opened SerializationCode

  // ----- the duplicate check --------------------------------------------------------------------------------

  function Names(members: seq<MemberVariable>): set<string> {
    set m | m in members :: m.name
  }

  function Ids(members: seq<MemberVariable>): set<nat> {
    set m | m in members :: m.id
  }

  /** No name and no id is met twice. */
  predicate Unseen(members: seq<MemberVariable>, names: set<string>, ids: set<nat>) {
    members == [] ||
    (members[0].name !in names && members[0].id !in ids &&
     Unseen(members[1..], names + {members[0].name}, ids + {members[0].id}))
  }

  predicate PathsDistinct(cls: Class, names: set<string>, ids: set<nat>) {
    Unseen(cls.members, names, ids) &&
    (cls.BaseClass? ==>
       forall k :: 0 <= k < |cls.children| ==>
         PathsDistinct(cls.children[k].cls, names + Names(cls.members), ids + Ids(cls.members)))
  }

  lemma {:induction false} UnseenAppend(a: seq<MemberVariable>, b: seq<MemberVariable>, names: set<string>, ids: set<nat>)
    ensures Unseen(a + b, names, ids) <==> Unseen(a, names, ids) && Unseen(b, names + Names(a), ids + Ids(a))
  {
    if a == [] {
      assert a + b == b && names + Names(a) == names && ids + Ids(a) == ids;
    } else {
      assert (a + b)[0] == a[0] && (a + b)[1..] == a[1..] + b;
      UnseenAppend(a[1..], b, names + {a[0].name}, ids + {a[0].id});
      assert a == [a[0]] + a[1..];
      assert names + {a[0].name} + Names(a[1..]) == names + Names(a);
      assert ids + {a[0].id} + Ids(a[1..]) == ids + Ids(a);
    }
  }

  lemma UnseenNext(members: seq<MemberVariable>, i: nat, names: set<string>, ids: set<nat>)
    requires i < |members| && Unseen(members[..i], names, ids)
    ensures Names(members[..i + 1]) == Names(members[..i]) + {members[i].name}
    ensures Ids(members[..i + 1]) == Ids(members[..i]) + {members[i].id}
    ensures Unseen(members[..i + 1], names, ids)
            <==> members[i].name !in names + Names(members[..i]) && members[i].id !in ids + Ids(members[..i])
  {
    assert members[..i + 1] == members[..i] + [members[i]];
    UnseenAppend(members[..i], [members[i]], names, ids);
  }

  lemma UnseenPrefix(members: seq<MemberVariable>, i: nat, names: set<string>, ids: set<nat>)
    requires i <= |members| && Unseen(members, names, ids)
    ensures Unseen(members[..i], names, ids)
  {
    assert members == members[..i] + members[i..];
    UnseenAppend(members[..i], members[i..], names, ids);
  }

  method CheckMembers(members: seq<MemberVariable>, seenNames: set<string>, seenIds: set<nat>)
    returns (ok: bool, names: set<string>, ids: set<nat>)
    ensures ok <==> Unseen(members, seenNames, seenIds)
    ensures ok ==> names == seenNames + Names(members) && ids == seenIds + Ids(members)
  {
    names, ids := seenNames, seenIds;
    for i := 0 to |members|
      invariant names == seenNames + Names(members[..i]) && ids == seenIds + Ids(members[..i])
      invariant Unseen(members[..i], seenNames, seenIds)
    {
      UnseenNext(members, i, seenNames, seenIds);
      if members[i].name in names || members[i].id in ids {
        ok := false;
        if Unseen(members, seenNames, seenIds) {
          UnseenPrefix(members, i + 1, seenNames, seenIds);
        }
        return;
      }
      names, ids := names + {members[i].name}, ids + {members[i].id};
    }
    assert members[..|members|] == members;
    ok := true;
  }

  /** The seen names and ids are passed down by value, so that siblings do not meet. */
  method CheckChildrenForDuplicateMembers(node: Class, seenNames: set<string>, seenIds: set<nat>) returns (ok: bool)
    ensures ok <==> PathsDistinct(node, seenNames, seenIds)
    decreases node
  {
    var fine, names, ids := CheckMembers(node.members, seenNames, seenIds);
    if !fine {
      return false;
    }
    if node.BaseClass? {
      for k := 0 to |node.children|
        invariant forall j :: 0 <= j < k ==> PathsDistinct(node.children[j].cls, names, ids)
      {
        var checked := CheckChildrenForDuplicateMembers(node.children[k].cls, names, ids);
        if !checked {
          return false;
        }
      }
    }
    return true;
  }

  /** A path down the inheritance tree. */
  ghost predicate IsDescent(chain: seq<Class>) {
    |chain| > 0 &&
    forall i :: 0 <= i < |chain| - 1 ==>
      chain[i].BaseClass? && exists k :: 0 <= k < |chain[i].children| && chain[i].children[k].cls == chain[i + 1]
  }

  function MembersOf(chain: seq<Class>): seq<MemberVariable> {
    if chain == [] then [] else chain[0].members + MembersOf(chain[1..])
  }

  predicate AllDistinct(members: seq<MemberVariable>) {
    forall i, j :: 0 <= i < j < |members| ==> members[i].name != members[j].name && members[i].id != members[j].id
  }

  lemma DistinctCons(m: MemberVariable, rest: seq<MemberVariable>)
    ensures AllDistinct([m] + rest) <==> AllDistinct(rest) && m.name !in Names(rest) && m.id !in Ids(rest)
  {
    var all := [m] + rest;
    if AllDistinct(all) {
      forall x | x in rest
        ensures x.name != m.name && x.id != m.id
      {
        var i :| 0 <= i < |rest| && rest[i] == x;
        assert all[0] == m && all[i + 1] == x;
      }
      forall i, j | 0 <= i < j < |rest|
        ensures rest[i].name != rest[j].name && rest[i].id != rest[j].id
      {
        assert all[i + 1] == rest[i] && all[j + 1] == rest[j];
      }
    }
    if AllDistinct(rest) && m.name !in Names(rest) && m.id !in Ids(rest) {
      forall i, j | 0 <= i < j < |all|
        ensures all[i].name != all[j].name && all[i].id != all[j].id
      {
        assert all[j] == rest[j - 1] && all[j] in rest;
      }
    }
  }

  lemma {:induction false} UnseenIffDistinct(members: seq<MemberVariable>, names: set<string>, ids: set<nat>)
    ensures Unseen(members, names, ids) <==>
            AllDistinct(members) && Names(members) !! names && Ids(members) !! ids
  {
    if members != [] {
      var m, rest := members[0], members[1..];
      UnseenIffDistinct(rest, names + {m.name}, ids + {m.id});
      assert members == [m] + rest;
      assert Names(members) == {m.name} + Names(rest);
      assert Ids(members) == {m.id} + Ids(rest);
      DistinctCons(m, rest);
    }
  }

  lemma TailIsDescent(chain: seq<Class>)
    requires IsDescent(chain) && |chain| > 1
    ensures IsDescent(chain[1..]) && chain[1..][0] == chain[1]
    ensures chain[0].BaseClass? && exists k :: 0 <= k < |chain[0].children| && chain[0].children[k].cls == chain[1]
  {
    assert chain[0 + 1] == chain[1] && forall i :: 0 <= i < |chain| - 1 ==> chain[1..][i] == chain[i + 1];
  }

  lemma {:induction false} DescentsUnseen(cls: Class, chain: seq<Class>, names: set<string>, ids: set<nat>)
    requires PathsDistinct(cls, names, ids) && IsDescent(chain) && chain[0] == cls
    ensures Unseen(MembersOf(chain), names, ids)
    decreases |chain|
  {
    UnseenAppend(cls.members, MembersOf(chain[1..]), names, ids);
    if |chain| > 1 {
      TailIsDescent(chain);
      DescentsUnseen(chain[1], chain[1..], names + Names(cls.members), ids + Ids(cls.members));
    }
  }

  lemma {:induction false} UnseenOnDescents(cls: Class, names: set<string>, ids: set<nat>)
    requires forall chain :: IsDescent(chain) && chain[0] == cls ==> Unseen(MembersOf(chain), names, ids)
    ensures PathsDistinct(cls, names, ids)
    decreases cls
  {
    assert IsDescent([cls]) && MembersOf([cls]) == cls.members + MembersOf([cls][1..]);
    assert MembersOf([cls]) == cls.members;
    if cls.BaseClass? {
      forall k | 0 <= k < |cls.children|
        ensures PathsDistinct(cls.children[k].cls, names + Names(cls.members), ids + Ids(cls.members))
      {
        var child := cls.children[k].cls;
        forall chain | IsDescent(chain) && chain[0] == child
          ensures Unseen(MembersOf(chain), names + Names(cls.members), ids + Ids(cls.members))
        {
          var longer := [cls] + chain;
          assert longer[1..] == chain;
          assert IsDescent(longer) by {
            forall i | 0 <= i < |longer| - 1
              ensures longer[i].BaseClass? &&
                      exists j :: 0 <= j < |longer[i].children| && longer[i].children[j].cls == longer[i + 1]
            {
              if i > 0 {
                assert longer[i] == chain[i - 1] && longer[i + 1] == chain[i];
              }
            }
          }
          UnseenAppend(cls.members, MembersOf(chain), names, ids);
        }
        UnseenOnDescents(child, names + Names(cls.members), ids + Ids(cls.members));
      }
    }
  }

  /** The check accepts exactly the trees in which names and ids are distinct along each path. */
  lemma CheckIsPathwise(root: Class)
    ensures PathsDistinct(root, {}, {}) <==>
            forall chain :: IsDescent(chain) && chain[0] == root ==> AllDistinct(MembersOf(chain))
  {
    if PathsDistinct(root, {}, {}) {
      forall chain | IsDescent(chain) && chain[0] == root
        ensures AllDistinct(MembersOf(chain))
      {
        DescentsUnseen(root, chain, {}, {});
        UnseenIffDistinct(MembersOf(chain), {}, {});
      }
    }
    if forall chain :: IsDescent(chain) && chain[0] == root ==> AllDistinct(MembersOf(chain)) {
      forall chain | IsDescent(chain) && chain[0] == root
        ensures Unseen(MembersOf(chain), {}, {})
      {
        UnseenIffDistinct(MembersOf(chain), {}, {});
      }
      UnseenOnDescents(root, {}, {});
    }
  }

  // ----- the code of a class --------------------------------------------------------------------------------

  /** The writer of a class, which first calls the writer of its base, and the reader. */
  datatype Code = Code(base: Option<string>, serialize: seq<WriteOp>, deserialize: seq<ReadOp>)

  function Writes(members: seq<MemberVariable>): (ops: seq<WriteOp>)
    ensures |ops| == |members| && forall i :: 0 <= i < |ops| ==> ops[i] == GetSerializeElement(members[i])
  {
    seq(|members|, i requires 0 <= i < |members| => GetSerializeElement(members[i]))
  }

  /** The write instructions of the members write the stream. */
  lemma {:induction false} StreamOfWrites(entries: seq<MemberEntry>, fields: map<string, Value>, options: Options)
    requires HasFields(entries, fields)
    ensures Writable(Writes(Made(entries)), fields)
    ensures WriteAll(Writes(Made(entries)), fields, options) == Stream(entries, fields, options)
  {
    var ops := Writes(Made(entries));
    forall i | 0 <= i < |entries|
      ensures ops[i].how != Never ==> ops[i].name in fields
    {
      WriteOfMember(entries[i], fields, options);
    }
    if entries != [] {
      assert ops[1..] == Writes(Made(entries[1..]));
      WriteOfMember(entries[0], fields, options);
      StreamOfWrites(entries[1..], fields, options);
    }
  }

  /** The writer of a class writes the stream of its own members. */
  ghost predicate WritesStream(ops: seq<WriteOp>, members: seq<MemberVariable>) {
    forall entries, fields, options :: WritesOne(ops, members, entries, fields, options)
  }

  ghost predicate WritesOne(ops: seq<WriteOp>, members: seq<MemberVariable>, entries: seq<MemberEntry>,
                            fields: map<string, Value>, options: Options)
  {
    members == Made(entries) && HasFields(entries, fields) ==>
      Writable(ops, fields) && WriteAll(ops, fields, options) == Stream(entries, fields, options)
  }

  lemma WritesAreStream(members: seq<MemberVariable>)
    ensures WritesStream(Writes(members), members)
  {
    forall entries, fields, options
      ensures WritesOne(Writes(members), members, entries, fields, options)
    {
      if members == Made(entries) && HasFields(entries, fields) {
        StreamOfWrites(entries, fields, options);
      }
    }
  }

  function Reads(members: seq<MemberVariable>, target: Target): (ops: seq<ReadOp>)
    ensures |ops| == |members| && forall i :: 0 <= i < |ops| ==> ops[i] == GetDeserializeElement(members[i], target)
  {
    seq(|members|, i requires 0 <= i < |members| => GetDeserializeElement(members[i], target))
  }

  function Sets(members: seq<MemberVariable>): seq<ReadOp> {
    seq(|members|, i requires 0 <= i < |members| => Set(members[i].typ, members[i].name))
  }

  function Unsets(members: seq<MemberVariable>): seq<ReadOp> {
    seq(|members|, i requires 0 <= i < |members| => Unset(members[i].typ))
  }

  function Cases(children: seq<Child>): seq<Case> {
    seq(|children|, i requires 0 <= i < |children| => Case(children[i].enumEntry, children[i].cls.name))
  }

  /** The members a base class leaves to the constructors of its children. */
  predicate IsDispatch(cls: Class, m: MemberVariable)
    requires cls.BaseClass?
  {
    m.name == cls.enumValue || m.name in Names(cls.setParameters)
  }

  /** The assignments of a base class. */
  function Assigns(cls: Class, members: seq<MemberVariable>): seq<ReadOp>
    requires cls.BaseClass?
  {
    if members == [] then []
    else
      var m := members[|members| - 1];
      Assigns(cls, members[..|members| - 1]) + if IsDispatch(cls, m) || m.deleted then [] else [Assign(m.name)]
  }

  function BaseCode(cls: Class, base: Option<Class>): Code
    requires cls.BaseClass?
  {
    Code(if base.Some? then Some(base.value.name) else None, Writes(cls.members),
         Reads(cls.members, Local) + Sets(cls.setParameters) + [Switch(cls.enumValue, Cases(cls.children))]
         + Unsets(cls.setParameters) + Assigns(cls, cls.members))
  }

  method EmitSets(members: seq<MemberVariable>) returns (ops: seq<ReadOp>)
    ensures ops == Sets(members)
  {
    ops := [];
    for i := 0 to |members|
      invariant ops == Sets(members)[..i]
    {
      ops := ops + [Set(members[i].typ, members[i].name)];
    }
  }

  method EmitUnsets(members: seq<MemberVariable>) returns (ops: seq<ReadOp>)
    ensures ops == Unsets(members)
  {
    ops := [];
    for i := 0 to |members|
      invariant ops == Unsets(members)[..i]
    {
      ops := ops + [Unset(members[i].typ)];
    }
  }

  method EmitCases(children: seq<Child>) returns (cases: seq<Case>)
    ensures cases == Cases(children)
  {
    cases := [];
    for i := 0 to |children|
      invariant cases == Cases(children)[..i]
    {
      cases := cases + [Case(children[i].enumEntry, children[i].cls.name)];
    }
  }

  method EmitAssigns(cls: Class) returns (ops: seq<ReadOp>)
    requires cls.BaseClass?
    ensures ops == Assigns(cls, cls.members)
  {
    ops := [];
    for i := 0 to |cls.members|
      invariant ops == Assigns(cls, cls.members[..i])
    {
      var m := cls.members[i];
      assert cls.members[..i + 1][..i] == cls.members[..i];
      if !(IsDispatch(cls, m) || m.deleted) {
        ops := ops + [Assign(m.name)];
      }
    }
    assert cls.members[..|cls.members|] == cls.members;
  }

  method GenerateBaseClassCode(cls: Class, base: Option<Class>) returns (code: Code)
    requires cls.BaseClass?
    ensures code == BaseCode(cls, base)
    ensures WritesStream(code.serialize, cls.members)
  {
    WritesAreStream(cls.members);
    var serialize: seq<WriteOp> := [];
    for i := 0 to |cls.members|
      invariant serialize == Writes(cls.members)[..i]
    {
      serialize := serialize + [GetSerializeElement(cls.members[i])];
    }
    var deserialize := EmitLocals(cls.members);
    var sets := EmitSets(cls.setParameters);
    var cases := EmitCases(cls.children);
    var unsets := EmitUnsets(cls.setParameters);
    var assigns := EmitAssigns(cls);
    deserialize := deserialize + sets + [Switch(cls.enumValue, cases)] + unsets + assigns;
    code := Code(if base.Some? then Some(base.value.name) else None, serialize, deserialize);
  }

  function Without(text: string, c: char): string {
    if text == "" then ""
    else if text[0] == c then Without(text[1..], c)
    else [text[0]] + Without(text[1..], c)
  }

  /** A trailing '&' asks for a reference. */
  function EntryName(entry: string): string {
    if entry != "" && entry[|entry| - 1] == '&' then entry[..|entry| - 1] else entry
  }

  function FindMember(members: seq<MemberVariable>, name: string): (k: Option<nat>)
    ensures k.Some? ==> k.value < |members| && members[k.value].name == name
    ensures k.None? ==> name !in Names(members)
  {
    if members == [] then None
    else if members[0].name == name then Some(0)
    else
      var k := FindMember(members[1..], name);
      if k.None? then None else Some(k.value + 1)
  }

  function BaseParameters(base: Option<Class>): seq<MemberVariable> {
    if base.Some? && base.value.BaseClass? then base.value.setParameters else []
  }

  /** The arguments for one constructor entry. */
  function EntryArguments(cls: Class, base: Option<Class>, entry: string): seq<Argument> {
    var name := EntryName(entry);
    (if FindMember(cls.members, name).Some? then [FromLocal(name)] else []) +
    (if name != "" && name[0] == '?' then [FromContext(Without(name, '?'), true)]
     else if name != "" && name[0] == '$' then [FromContext(Without(name, '$'), false)]
     else []) +
    (var k := FindMember(BaseParameters(base), name);
     if k.Some? then [FromParameter(name, BaseParameters(base)[k.value].typ)] else [])
  }

  function ConstructorArguments(cls: Class, base: Option<Class>, entries: seq<string>): Result<seq<Argument>> {
    if entries == [] then Ok([])
    else
      var before := ConstructorArguments(cls, base, entries[..|entries| - 1]);
      var arguments := EntryArguments(cls, base, entries[|entries| - 1]);
      if before.Err? then before
      else if arguments == [] then Err("constructor member not found")
      else Ok(before.value + arguments)
  }

  function EntryNames(entries: seq<string>): set<string> {
    set e | e in entries :: EntryName(e)
  }

  /** The number of members up to the last one the constructor takes. */
  function ConstructorPrefix(members: seq<MemberVariable>, entries: seq<string>): (n: nat)
    ensures n <= |members|
  {
    if entries == [] then 0
    else
      var n := ConstructorPrefix(members, entries[..|entries| - 1]);
      var k := FindMember(members, EntryName(entries[|entries| - 1]));
      if k.Some? && k.value + 1 > n then k.value + 1 else n
  }

  /** What is emitted for member `i` after the constructor call. */
  function LaterCode(cls: Class, i: nat): seq<ReadOp>
    requires cls.DataClass? && i < |cls.members|
  {
    var m := cls.members[i];
    (if i >= ConstructorPrefix(cls.members, cls.constructorEntries) then [GetDeserializeElement(m, Member)]
     else if m.name !in EntryNames(cls.constructorEntries) && !m.deleted then [Assign(m.name)]
     else []) +
    (if m.name in Names(cls.setParameters) && !m.deleted then [Set(m.typ, m.name)] else [])
  }

  function AfterConstruction(cls: Class, n: nat): seq<ReadOp>
    requires cls.DataClass? && n <= |cls.members|
  {
    if n == 0 then [] else AfterConstruction(cls, n - 1) + LaterCode(cls, n - 1)
  }

  function ClassCode(cls: Class, base: Option<Class>): Result<Code>
    requires cls.DataClass?
  {
    var arguments := ConstructorArguments(cls, base, cls.constructorEntries);
    if arguments.Err? then Err(arguments.message)
    else
      Ok(Code(if base.Some? then Some(base.value.name) else None, Writes(cls.members),
              Reads(cls.members[..ConstructorPrefix(cls.members, cls.constructorEntries)], Local)
              + [Construct(cls.name, cls.fixed, arguments.value)]
              + AfterConstruction(cls, |cls.members|) + Unsets(cls.setParameters)))
  }

  lemma OneMoreEntry(cls: Class, base: Option<Class>, entries: seq<string>, i: nat)
    requires i < |entries| && cls.DataClass?
    ensures var before, arguments := ConstructorArguments(cls, base, entries[..i]), EntryArguments(cls, base, entries[i]);
            ConstructorArguments(cls, base, entries[..i + 1])
            == if before.Err? then before else if arguments == [] then Err("constructor member not found")
               else Ok(before.value + arguments)
    ensures EntryNames(entries[..i + 1]) == EntryNames(entries[..i]) + {EntryName(entries[i])}
    ensures var n, k := ConstructorPrefix(cls.members, entries[..i]), FindMember(cls.members, EntryName(entries[i]));
            ConstructorPrefix(cls.members, entries[..i + 1]) == if k.Some? && k.value + 1 > n then k.value + 1 else n
  {
    assert entries[..i + 1][..i] == entries[..i] && entries[..i + 1] == entries[..i] + [entries[i]];
  }

  /** The loop over the constructor entries. */
  method CollectConstructor(cls: Class, base: Option<Class>)
    returns (arguments: Result<seq<Argument>>, names: set<string>, prefix: nat)
    requires cls.DataClass?
    ensures arguments == ConstructorArguments(cls, base, cls.constructorEntries)
    ensures arguments.Ok? ==> names == EntryNames(cls.constructorEntries)
    ensures arguments.Ok? ==> prefix == ConstructorPrefix(cls.members, cls.constructorEntries)
  {
    var entries := cls.constructorEntries;
    var collected := [];
    names, prefix := {}, 0;
    for i := 0 to |entries|
      invariant ConstructorArguments(cls, base, entries[..i]) == Ok(collected)
      invariant names == EntryNames(entries[..i]) && prefix == ConstructorPrefix(cls.members, entries[..i])
    {
      OneMoreEntry(cls, base, entries, i);
      var name := EntryName(entries[i]);
      names := names + {name};
      var found := EntryArguments(cls, base, entries[i]);
      var k := FindMember(cls.members, name);
      if k.Some? && k.value + 1 > prefix {
        prefix := k.value + 1;
      }
      if found == [] {
        EntryNotFound(cls, base, entries, i);
        arguments := Err("constructor member not found");
        return;
      }
      collected := collected + found;
    }
    assert entries[..|entries|] == entries;
    arguments := Ok(collected);
  }

  lemma {:induction false} ArgumentsFail(cls: Class, base: Option<Class>, entries: seq<string>, n: nat)
    requires n <= |entries| && ConstructorArguments(cls, base, entries[..n]).Err?
    ensures ConstructorArguments(cls, base, entries) == ConstructorArguments(cls, base, entries[..n])
    decreases |entries|
  {
    if n == |entries| {
      assert entries[..n] == entries;
    } else {
      assert entries[..|entries| - 1][..n] == entries[..n];
      ArgumentsFail(cls, base, entries[..|entries| - 1], n);
    }
  }

  lemma EntryNotFound(cls: Class, base: Option<Class>, entries: seq<string>, i: nat)
    requires cls.DataClass? && i < |entries|
    requires ConstructorArguments(cls, base, entries[..i]).Ok? && EntryArguments(cls, base, entries[i]) == []
    ensures ConstructorArguments(cls, base, entries) == Err("constructor member not found")
  {
    OneMoreEntry(cls, base, entries, i);
    ArgumentsFail(cls, base, entries, i + 1);
  }

  /** The loop over the members after the constructor call. */
  method EmitMembers(cls: Class, names: set<string>, prefix: nat) returns (serialize: seq<WriteOp>, deserialize: seq<ReadOp>)
    requires cls.DataClass? && names == EntryNames(cls.constructorEntries)
    requires prefix == ConstructorPrefix(cls.members, cls.constructorEntries)
    ensures serialize == Writes(cls.members) && deserialize == AfterConstruction(cls, |cls.members|)
  {
    serialize, deserialize := [], [];
    for i := 0 to |cls.members|
      invariant serialize == Writes(cls.members)[..i] && deserialize == AfterConstruction(cls, i)
    {
      serialize := serialize + [GetSerializeElement(cls.members[i])];
      var later := EmitMember(cls, i, names, prefix);
      deserialize := deserialize + later;
    }
  }

  method EmitMember(cls: Class, i: nat, names: set<string>, prefix: nat) returns (later: seq<ReadOp>)
    requires cls.DataClass? && i < |cls.members| && names == EntryNames(cls.constructorEntries)
    requires prefix == ConstructorPrefix(cls.members, cls.constructorEntries)
    ensures later == LaterCode(cls, i)
  {
    var m := cls.members[i];
    later := [];
    if i >= prefix {
      later := later + [GetDeserializeElement(m, Member)];
    } else if m.name !in names && !m.deleted {
      later := later + [Assign(m.name)];
    }
    if m.name in Names(cls.setParameters) && !m.deleted {
      later := later + [Set(m.typ, m.name)];
    }
  }

  method EmitLocals(members: seq<MemberVariable>) returns (ops: seq<ReadOp>)
    ensures ops == Reads(members, Local)
  {
    ops := [];
    for i := 0 to |members|
      invariant ops == Reads(members, Local)[..i]
    {
      ops := ops + [GetDeserializeElement(members[i], Local)];
    }
  }

  method GenerateClassCode(cls: Class, base: Option<Class>) returns (code: Result<Code>)
    requires cls.DataClass?
    ensures code == ClassCode(cls, base)
    ensures code.Ok? ==> WritesStream(code.value.serialize, cls.members)
  {
    WritesAreStream(cls.members);
    var arguments, names, prefix := CollectConstructor(cls, base);
    if arguments.Err? {
      return Err(arguments.message);
    }
    var deserialize := EmitLocals(cls.members[..prefix]);
    deserialize := deserialize + [Construct(cls.name, cls.fixed, arguments.value)];
    var serialize, later := EmitMembers(cls, names, prefix);
    var unsets := EmitUnsets(cls.setParameters);
    deserialize := deserialize + later + unsets;
    code := Ok(Code(if base.Some? then Some(base.value.name) else None, serialize, deserialize));
  }
}
