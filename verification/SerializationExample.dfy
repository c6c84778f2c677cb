/** Two expression classes of the schema of parsed expressions: the conditions of the round trip hold
    for them. One class takes the expression type from its base class, the other always stores its own.
    The member that the schema calls "class" goes by its property, "expression_class". */
module SerializationExample {
  import opened Common
  import opened SerializationCode
  import opened SerializationGenerator
  import opened SerializationRoundTrip

  const COMPARISON := Other(1)
  const CONSTANT := Other(2)
  const VALUE_CONSTANT := Other(3)
  const NO_INDEX := Other(4)

  const EXPRESSION_CLASS := MemberVariable(100, "expression_class", "ExpressionClass", false, None, false, 1)
  const TYPE := MemberVariable(101, "type", "ExpressionType", false, None, false, 1)
  const ALIAS := MemberVariable(102, "alias", "string", true, None, false, 1)
  const QUERY_LOCATION := MemberVariable(103, "query_location", "optional_idx", true, Some(NO_INDEX), false, 1)
  const LEFT := MemberVariable(200, "left", "ParsedExpression*", true, None, false, 1)
  const RIGHT := MemberVariable(201, "right", "ParsedExpression*", true, None, false, 1)
  const VALUE := MemberVariable(200, "value", "Value", false, None, false, 1)

  function ComparisonExpression(): Class {
    DataClass("ComparisonExpression", [LEFT, RIGHT], ["type"], [], map["expression_class" := COMPARISON])
  }

  function ConstantExpression(): Class {
    DataClass("ConstantExpression", [VALUE], [], [], map["expression_class" := CONSTANT, "type" := VALUE_CONSTANT])
  }

  function ParsedExpression(): Class {
    BaseClass("ParsedExpression", [EXPRESSION_CLASS, TYPE, ALIAS, QUERY_LOCATION], "expression_class", [TYPE],
              [Child(COMPARISON, ComparisonExpression()), Child(CONSTANT, ConstantExpression())])
  }

  lemma ComparisonArguments()
    ensures ConstructorArguments(ComparisonExpression(), Some(ParsedExpression()), ["type"])
            == Ok([FromParameter("type", "ExpressionType")])
    ensures ContextGiven(ComparisonExpression(), Some(ParsedExpression()), map[])
  {
    var cls, base := ComparisonExpression(), Some(ParsedExpression());
    assert FindMember([TYPE], "type") == Some(0);
    assert FindMember([RIGHT], "type").None? && FindMember([LEFT, RIGHT], "type").None? by {
      assert [LEFT, RIGHT][1..] == [RIGHT] && [RIGHT][1..] == [];
    }
    assert EntryArguments(cls, base, "type") == [FromParameter("type", "ExpressionType")];
    assert ["type"][..0] == [];
  }

  lemma ComparisonIsWellFormed(owed: set<string>)
    requires owed == {"expression_class", "type"}
    ensures WellFormed(ComparisonExpression(), Some(ParsedExpression()), owed)
  {
    var cls, base := ComparisonExpression(), Some(ParsedExpression());
    ComparisonArguments();
    assert EntryName("type") == "type";
    assert FindMember([TYPE], "type") == Some(0);
    assert FindMember([RIGHT], "type").None? && FindMember([LEFT, RIGHT], "type").None? by {
      assert [LEFT, RIGHT][1..] == [RIGHT] && [RIGHT][1..] == [];
    }
    assert ["type"][..0] == [];
    assert EntryNames(["type"]) == {"type"};
    assert Prefix(cls) == 0;
    assert Taken(cls, base, "type");
  }

  lemma ConstantIsWellFormed(owed: set<string>)
    requires owed == {"expression_class", "type"}
    ensures WellFormed(ConstantExpression(), Some(ParsedExpression()), owed)
  {
    assert Prefix(ConstantExpression()) == 0;
  }

  lemma BaseIsOk()
    ensures BaseOk(ParsedExpression()) && DispatchNames(ParsedExpression()) == {"expression_class", "type"}
  {
    var cls := ParsedExpression();
    assert EXPRESSION_CLASS in cls.members && TYPE in cls.members;
    assert Names([TYPE]) == {"type"};
  }

  lemma TwoUnseen(a: MemberVariable, b: MemberVariable, names: set<string>, ids: set<nat>)
    requires a.name != b.name && a.id != b.id && {a.name, b.name} !! names && {a.id, b.id} !! ids
    ensures Unseen([a, b], names, ids) && Unseen([a], names, ids)
  {
    assert [a, b][1..] == [b] && [b][1..] == [] && [a][1..] == [];
  }

  lemma NamesOfTwo(a: MemberVariable, b: MemberVariable)
    ensures Names([a, b]) == {a.name, b.name} && Ids([a, b]) == {a.id, b.id}
  {
    assert [a, b][0] == a && [a, b][1] == b;
  }

  lemma NamesOfFour(a: MemberVariable, b: MemberVariable, c: MemberVariable, d: MemberVariable)
    ensures Names([a, b, c, d]) == {a.name, b.name, c.name, d.name} && Ids([a, b, c, d]) == {a.id, b.id, c.id, d.id}
  {
    var members := [a, b, c, d];
    assert members[0] == a && members[1] == b && members[2] == c && members[3] == d;
  }

  lemma FourUnseen(a: MemberVariable, b: MemberVariable, c: MemberVariable, d: MemberVariable, members: seq<MemberVariable>)
    requires a.name !in {b.name, c.name, d.name} && b.name !in {c.name, d.name} && c.name != d.name
    requires a.id !in {b.id, c.id, d.id} && b.id !in {c.id, d.id} && c.id != d.id
    requires members == [a, b] + [c, d]
    ensures Unseen(members, {}, {})
  {
    NamesOfTwo(a, b);
    TwoUnseen(a, b, {}, {});
    TwoUnseen(c, d, {} + Names([a, b]), {} + Ids([a, b]));
    UnseenAppend([a, b], [c, d], {}, {});
  }

  lemma BaseMembersAreDistinct(members: seq<MemberVariable>)
    requires members == [EXPRESSION_CLASS, TYPE, ALIAS, QUERY_LOCATION]
    ensures Unseen(members, {}, {})
  {
    FourUnseen(EXPRESSION_CLASS, TYPE, ALIAS, QUERY_LOCATION, members);
  }

  lemma MembersAreDistinct()
    ensures PathsDistinct(ParsedExpression(), {}, {})
  {
    var members := ParsedExpression().members;
    BaseMembersAreDistinct(members);
    NamesOfFour(EXPRESSION_CLASS, TYPE, ALIAS, QUERY_LOCATION);
    ChildrenAreDistinct(Names(members), Ids(members));
    BaseIsDistinct(ParsedExpression(), Names(members), Ids(members));
  }

  lemma BaseIsDistinct(cls: Class, names: set<string>, ids: set<nat>)
    requires cls.BaseClass? && Unseen(cls.members, {}, {}) && names == Names(cls.members) && ids == Ids(cls.members)
    requires forall k :: 0 <= k < |cls.children| ==> PathsDistinct(cls.children[k].cls, names, ids)
    ensures PathsDistinct(cls, {}, {})
  {
    assert {} + names == names && {} + ids == ids;
  }

  lemma ChildrenAreDistinct(names: set<string>, ids: set<nat>)
    requires names == {"expression_class", "type", "alias", "query_location"} && ids == {100, 101, 102, 103}
    ensures PathsDistinct(ComparisonExpression(), names, ids) && PathsDistinct(ConstantExpression(), names, ids)
  {
    TwoUnseen(LEFT, RIGHT, names, ids);
    TwoUnseen(VALUE, RIGHT, names, ids);
  }

  lemma WellFormedBase(cls: Class, base: Option<Class>, owed: set<string>)
    requires BaseOk(cls) && forall m :: m in cls.members ==> SchemaMember(m)
    requires forall k :: 0 <= k < |cls.children| ==> WellFormed(cls.children[k].cls, Some(cls), owed + DispatchNames(cls))
    ensures WellFormed(cls, base, owed)
  {
  }

  lemma ParsedExpressionIsWellFormed()
    ensures WellFormed(ParsedExpression(), None, {}) && PathsDistinct(ParsedExpression(), {}, {})
  {
    BaseIsOk();
    MembersAreDistinct();
    var cls := ParsedExpression();
    var owed := {} + DispatchNames(cls);
    forall k | 0 <= k < |cls.children|
      ensures WellFormed(cls.children[k].cls, Some(cls), owed)
    {
      if k == 0 {
        ComparisonIsWellFormed(owed);
      } else {
        ConstantIsWellFormed(owed);
      }
    }
    WellFormedBase(cls, None, {});
  }

  lemma TwoLevels(base: Class, cls: Class)
    ensures MembersOf([base, cls]) == base.members + cls.members
  {
    assert [base, cls][1..] == [cls];
    OneClass(cls);
  }

  lemma GatesAreOpen(options: Options)
    ensures forall m :: m in ParsedExpression().members + ComparisonExpression().members ==> GateOpen(m, options)
  {
  }

  /** So every comparison comes back, whatever the values of its members. */
  lemma ComparisonsRoundTrip(fields: map<string, Value>, options: Options, after: seq<Token>)
    requires IsObject([ParsedExpression(), ComparisonExpression()], None, fields)
    ensures var chain := [ParsedExpression(), ComparisonExpression()];
            && (forall i :: 0 <= i < |chain| ==> Writable(Writes(chain[i].members), fields))
            && var d := Deserialize(ParsedExpression(), None, Serialize(chain, fields, options) + ([End] + after), map[]);
            d.Ok? && Restores(chain, d.value.result.fields, fields)
  {
    ParsedExpressionIsWellFormed();
    ComparisonArguments();
    TwoLevels(ParsedExpression(), ComparisonExpression());
    var chain := [ParsedExpression(), ComparisonExpression()];
    GatesAreOpen(options);
    RoundTrip(chain, fields, options, after, map[]);
  }
}
