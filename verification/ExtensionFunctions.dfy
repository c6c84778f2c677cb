/** The registry of extension functions: one map for functions of a single extension, one for
    functions that several extensions provide. Both are kept up to date extension by extension. */
module ExtensionFunctions {
  import opened Common

  datatype Function = Function(name: string, kind: nat)

  datatype FunctionOverload = FunctionOverload(of: Function, parameters: seq<string>, returnType: string)

  datatype ExtensionOverload = ExtensionOverload(extension: string, overload: FunctionOverload)

  datatype ExtensionFunction = ExtensionFunction(extension: string, of: Function)

  /** One extension that has been added, with its overloads by function. */
  datatype Addition = Addition(extension: string, overloads: map<Function, seq<FunctionOverload>>)

  function Attributed(extension: string, overloads: seq<FunctionOverload>): (r: seq<ExtensionOverload>)
    ensures |r| == |overloads|
  {
    seq(|overloads|, i requires 0 <= i < |overloads| => ExtensionOverload(extension, overloads[i]))
  }

  // ----- what the maps are for -----------------------------------------------------------------------------

  /** The extensions that provide a function, in the order in which they were added. */
  function Providers(history: seq<Addition>, f: Function): seq<Addition> {
    if history == [] then []
    else
      var last := history[|history| - 1];
      Providers(history[..|history| - 1], f) + if f in last.overloads then [last] else []
  }

  /** All overloads of a function, extension by extension. */
  function AllOverloads(history: seq<Addition>, f: Function): seq<ExtensionOverload> {
    if history == [] then []
    else
      var last := history[|history| - 1];
      AllOverloads(history[..|history| - 1], f) +
      if f in last.overloads then Attributed(last.extension, last.overloads[f]) else []
  }

  lemma HistoryMore(history: seq<Addition>, a: Addition, f: Function)
    ensures Providers(history + [a], f) == Providers(history, f) + if f in a.overloads then [a] else []
    ensures AllOverloads(history + [a], f)
            == AllOverloads(history, f) + if f in a.overloads then Attributed(a.extension, a.overloads[f]) else []
  {
    assert (history + [a])[..|history|] == history;
  }

  /** With one provider all overloads are its own. */
  lemma {:induction false} SoleProvider(history: seq<Addition>, f: Function)
    ensures Providers(history, f) == [] ==> AllOverloads(history, f) == []
    ensures |Providers(history, f)| == 1 ==>
              var p := Providers(history, f)[0];
              f in p.overloads && AllOverloads(history, f) == Attributed(p.extension, p.overloads[f])
  {
    if history != [] {
      SoleProvider(history[..|history| - 1], f);
    }
  }

  /** The extension functions are lists of (function, overload) rows, grouped by function. */
  method GetFunctions(rows: seq<FunctionOverload>) returns (functions: set<Function>, overloads: map<Function, seq<FunctionOverload>>)
    ensures functions == overloads.Keys
    ensures forall f :: f in functions <==> exists k :: 0 <= k < |rows| && rows[k].of == f
    ensures forall f :: f in overloads ==> overloads[f] == RowsOf(rows, f)
  {
    functions, overloads := {}, map[];
    for i := 0 to |rows|
      invariant functions == overloads.Keys
      invariant forall f :: f in functions <==> exists k :: 0 <= k < i && rows[k].of == f
      invariant forall f :: f in overloads ==> overloads[f] == RowsOf(rows[..i], f)
      invariant forall f :: f !in overloads ==> RowsOf(rows[..i], f) == []
    {
      var f := rows[i].of;
      assert rows[..i + 1][..i] == rows[..i];
      if f !in functions {
        functions := functions + {f};
        overloads := overloads[f := [rows[i]]];
      } else {
        overloads := overloads[f := overloads[f] + [rows[i]]];
      }
    }
    assert rows[..|rows|] == rows;
  }

  function RowsOf(rows: seq<FunctionOverload>, f: Function): seq<FunctionOverload> {
    if rows == [] then []
    else RowsOf(rows[..|rows| - 1], f) + if rows[|rows| - 1].of == f then [rows[|rows| - 1]] else []
  }

  /** The overloads with the name of their extension. */
  function GetExtensionOverloads(extension: string, overloads: map<Function, seq<FunctionOverload>>)
    : map<Function, seq<ExtensionOverload>>
  {
    map f | f in overloads :: Attributed(extension, overloads[f])
  }

  // ----- the registry --------------------------------------------------------------------------------------

  type Overloads = map<Function, seq<ExtensionOverload>>

  /** A function that is not a base function is in the one map iff one extension provides it, and in the other, with
      the overloads of all of them in order, iff several do. */
  predicate EntryIs(history: seq<Addition>, base: set<Function>, functionMap: map<Function, ExtensionFunction>,
                    functionOverloads: Overloads, all: Overloads, f: Function)
  {
    var providers := Providers(history, f);
    if f in base then f !in functionMap && f !in functionOverloads
    else
      (f in functionMap <==> |providers| == 1) &&
      (f in functionMap ==> functionMap[f] == ExtensionFunction(providers[0].extension, f)) &&
      (f in functionOverloads <==> |providers| >= 2) &&
      (f in functionOverloads ==> functionOverloads[f] == AllOverloads(history, f)) &&
      (|providers| == 1 ==> f in all && all[f] == AllOverloads(history, f))
  }

  /** What adding an extension does to the entries of one function. */
  lemma EntryMoves(history: seq<Addition>, a: Addition, base: set<Function>, map0: map<Function, ExtensionFunction>,
                   overloads0: Overloads, all0: Overloads, map1: map<Function, ExtensionFunction>, overloads1: Overloads,
                   all1: Overloads, f: Function)
    requires EntryIs(history, base, map0, overloads0, all0, f)
    requires f in a.overloads ==> f in all1 && all1[f] == Attributed(a.extension, a.overloads[f])
    requires f !in a.overloads ==> (f in all1 <==> f in all0) && (f in all0 ==> all1[f] == all0[f])
    requires f in a.overloads && f !in base && f in overloads0 ==>
               f !in map1 && f in overloads1 && overloads1[f] == overloads0[f] + Attributed(a.extension, a.overloads[f])
    requires f in a.overloads && f !in base && f !in overloads0 && f in map0 ==>
               f in all0 && f !in map1 && f in overloads1 && overloads1[f] == all0[f] + Attributed(a.extension, a.overloads[f])
    requires f in a.overloads && f !in base && f !in overloads0 && f !in map0 ==>
               f in map1 && map1[f] == ExtensionFunction(a.extension, f) && f !in overloads1
    requires f !in a.overloads || f in base ==>
               (f in map1 <==> f in map0) && (f in map0 ==> map1[f] == map0[f]) &&
               (f in overloads1 <==> f in overloads0) && (f in overloads0 ==> overloads1[f] == overloads0[f])
    ensures EntryIs(history + [a], base, map1, overloads1, all1, f)
  {
    HistoryMore(history, a, f);
    SoleProvider(history, f);
    SoleProvider(history + [a], f);
  }

  class ExtensionData {
    const baseFunctions: set<Function>
    var functionMap: map<Function, ExtensionFunction>
    var functionOverloads: map<Function, seq<ExtensionOverload>>
    var allFunctionOverloads: map<Function, seq<ExtensionOverload>>
    /** The extensions added so far. */
    ghost var history: seq<Addition>

    constructor (baseFunctions: set<Function>)
      ensures this.baseFunctions == baseFunctions && history == [] && Valid()
    {
      this.baseFunctions := baseFunctions;
      functionMap, functionOverloads, allFunctionOverloads, history := map[], map[], map[], [];
    }

    ghost predicate Valid()
      reads this
    {
      forall f :: EntryIs(history, baseFunctions, functionMap, functionOverloads, allFunctionOverloads, f)
    }

    /** Moves the functions that another extension provides to the second map and collects the new ones. */
    method MoveFunctions(extension: string, added: set<Function>, attributed: Overloads)
        returns (functionsToAdd: map<Function, ExtensionFunction>)
      requires added <= attributed.Keys
      requires forall f :: f in functionMap ==> f in allFunctionOverloads && f !in functionOverloads
      modifies this`functionMap, this`functionOverloads
      ensures forall f :: f in functionMap <==> f in old(functionMap) && (f !in added || f in old(functionOverloads))
      ensures forall f :: f in functionMap ==> functionMap[f] == old(functionMap)[f]
      ensures forall f :: f in functionOverloads <==> f in old(functionOverloads) || (f in added && f in old(functionMap))
      ensures forall f :: f in functionOverloads ==>
                functionOverloads[f] ==
                if f !in added then old(functionOverloads)[f]
                else (if f in old(functionOverloads) then old(functionOverloads)[f] else allFunctionOverloads[f]) + attributed[f]
      ensures forall f :: f in functionsToAdd <==> f in added && f !in old(functionOverloads) && f !in old(functionMap)
      ensures forall f :: f in functionsToAdd ==> functionsToAdd[f] == ExtensionFunction(extension, f)
    {
      functionsToAdd := map[];
      ghost var map0, overloads0 := functionMap, functionOverloads;
      var todo := added;
      while todo != {}
        invariant todo <= added
        invariant forall f :: f in functionMap <==> f in map0 && (f !in added - todo || f in overloads0)
        invariant forall f :: f in functionMap ==> functionMap[f] == map0[f]
        invariant forall f :: f in functionOverloads <==> f in overloads0 || (f in added - todo && f in map0)
        invariant forall f :: f in functionOverloads ==>
                    functionOverloads[f] ==
                    if f !in added - todo then overloads0[f]
                    else (if f in overloads0 then overloads0[f] else allFunctionOverloads[f]) + attributed[f]
        invariant forall f :: f in functionsToAdd <==> f in added - todo && f !in overloads0 && f !in map0
        invariant forall f :: f in functionsToAdd ==> functionsToAdd[f] == ExtensionFunction(extension, f)
      {
        var f :| f in todo;
        if f in functionOverloads {
          // more than one provider already
          functionOverloads := functionOverloads[f := functionOverloads[f] + attributed[f]];
        } else if f in functionMap {
          // the second provider: the entry moves
          functionOverloads := functionOverloads[f := allFunctionOverloads[f] + attributed[f]];
          functionMap := functionMap - {f};
        } else {
          functionsToAdd := functionsToAdd[f := ExtensionFunction(extension, f)];
        }
        todo := todo - {f};
      }
    }

    /** Adds an extension: a function that another extension provides moves to the second map. */
    method AddFunctions(extension: string, functions: set<Function>, overloads: map<Function, seq<FunctionOverload>>)
      requires Valid() && functions == overloads.Keys
      modifies this
      ensures Valid() && history == old(history) + [Addition(extension, overloads)]
    {
      var attributed := GetExtensionOverloads(extension, overloads);
      ghost var map0, overloads0 := functionMap, functionOverloads;
      forall f | f in map0
        ensures f in allFunctionOverloads && f !in overloads0
      {
        assert EntryIs(history, baseFunctions, functionMap, functionOverloads, allFunctionOverloads, f);
      }
      var functionsToAdd := MoveFunctions(extension, functions - baseFunctions, attributed);
      allFunctionOverloads := allFunctionOverloads + attributed;
      functionMap := functionMap + functionsToAdd;
      history := history + [Addition(extension, overloads)];
      forall f
        ensures EntryIs(history, baseFunctions, functionMap, functionOverloads, allFunctionOverloads, f)
      {
        assert EntryIs(old(history), baseFunctions, map0, overloads0, old(allFunctionOverloads), f);
        EntryMoves(old(history), Addition(extension, overloads), baseFunctions, map0, overloads0, old(allFunctionOverloads),
                   functionMap, functionOverloads, allFunctionOverloads, f);
      }
    }
  }
}
