/** The stream of an object and how it is read, said of the schema entries alone: which members are in the
    stream, and what the reader makes of the others. */
module SerializationStream {
  import opened Common
  import opened SerializationCode
  import opened SerializationGenerator
  import opened SerializationRoundTrip

  /** The generated writers of a class and its bases write the stream of the members of the path. */
  lemma StreamOfObject(chain: seq<Class>, entries: seq<MemberEntry>, fields: map<string, Value>, options: Options)
    requires MembersOf(chain) == Made(entries) && HasFields(entries, fields)
    ensures forall i :: 0 <= i < |chain| ==> Writable(Writes(chain[i].members), fields)
    ensures Serialize(chain, fields, options) == Stream(entries, fields, options)
  {
    forall m | m in Made(entries) && Live(m)
      ensures m.name in fields
    {
      var i :| 0 <= i < |entries| && Made(entries)[i] == m;
      assert !entries[i].deleted;
    }
    SerializeInOrder(chain, fields, options);
    StreamOfWrites(entries, fields, options);
  }

  /** Reading members from a stream: their values, without the deleted ones, and the rest of the stream. */
  function Reading(entries: seq<MemberEntry>, stream: seq<Token>): Result<(map<string, Value>, seq<Token>)> {
    if entries == [] then Ok((map[], stream))
    else if stream == [] then Err("end of data")
    else
      var e := entries[0];
      if stream[0].Field? && stream[0].id == e.id then
        With(if e.deleted then map[] else map[e.name := stream[0].value], Reading(entries[1..], stream[1..]))
      else if e.deleted then Reading(entries[1..], stream)
      else if e.default.Some? then With(map[e.name := e.default.value], Reading(entries[1..], stream))
      else if HasDefaultByDefault(e.typ) then With(map[e.name := DefaultOf(e.typ)], Reading(entries[1..], stream))
      else Err("field id mismatch")
  }

  /** Later members go over earlier ones of the same name. */
  function With(first: map<string, Value>, rest: Result<(map<string, Value>, seq<Token>)>): Result<(map<string, Value>, seq<Token>)> {
    if rest.Err? then rest else Ok((first + rest.value.0, rest.value.1))
  }

  /** The generated reads do that. */
  lemma {:induction false} ReadMembersIsReading(entries: seq<MemberEntry>, stream: seq<Token>)
    ensures ReadMembers(Made(entries), stream) == Reading(entries, stream)
  {
    if entries != [] {
      assert Made(entries)[1..] == Made(entries[1..]);
      if stream != [] {
        var e := entries[0];
        ReadOfMember(e, stream, Local);
        if stream[0].Field? && stream[0].id == e.id {
          ReadMembersIsReading(entries[1..], stream[1..]);
        } else {
          ReadMembersIsReading(entries[1..], stream);
          NothingFirst(Reading(entries[1..], stream));
        }
      }
    }
  }

  lemma NothingFirst(rest: Result<(map<string, Value>, seq<Token>)>)
    ensures With(map[], rest) == rest
  {
    if rest.Ok? {
      assert map[] + rest.value.0 == rest.value.0;
    }
  }

  /** Types of members of the shipped schemas that have a default of their own. */
  lemma TypesWithDefault()
    ensures HasDefaultByDefault("string") && HasDefaultByDefault("bool") && HasDefaultByDefault("Expression*")
  {
    LetterInside("string", "<");
    LetterInside("bool", "<");
  }

  lemma ContainersHaveDefault()
    ensures HasDefaultByDefault("vector<string>")
  {
    var list := "vector<string>";
    assert Contains(list, "<") by {
      assert list[6..][0] == '<';
    }
    LetterInside(list, "CSVOption");
    LetterInside(list, "IndexVector");
  }

  /** And types that have none. */
  lemma TypesWithoutDefault()
    ensures !HasDefaultByDefault("double")
  {
    LetterInside("double", "<");
  }

  lemma OptionsHaveNoDefault()
    ensures !HasDefaultByDefault("CSVOption<char>")
  {
    var option := "CSVOption<char>";
    StartsWith(option, "shared_ptr<");
    assert !IsContainer(option) by {
      assert "CSVOption" <= option[0..];
    }
  }

  lemma StartsWith(text: string, part: string)
    ensures part != [] && part <= text ==> text != [] && text[0] == part[0]
  {
  }

  lemma LetterInside(text: string, part: string)
    requires part != []
    ensures Contains(text, part) ==> part[0] in text
  {
    if Contains(text, part) {
      var i :| 0 <= i <= |text| && part <= text[i..];
      assert text[i] == part[0];
    }
  }
}
