// The agent's side of a query: keeping the collected module data that meets the
// pushed-down conditions, and deciding from what is left whether it matches.
module Filtering {
  import opened Expressions
  import opened Options

  // A pushed-down condition, as it travels.
  datatype Filter = Filter(field: string, operator: string, value: string)

  // Collected data: what a module reports is an object, a list or a plain value.
  datatype Json = Plain(text: string) | List(items: seq<Json>) | Obj(fields: map<string, Json>)

  type Data = map<string, Json>

  // How one decoded condition judges one value; number parsing and text
  // conversion live here.
  type Judge = (Filter, Json) -> bool

  const ARRAY_MODULE_KEYS: map<string, string> :=
    map["packages" := "packages", "services" := "services", "disk" := "partitions", "network" := "interfaces"]

  // --------------------------------------------------------------------
  // Fields
  // --------------------------------------------------------------------

  function FirstDot(f: string): (i: nat)
    ensures i <= |f|
    ensures i < |f| ==> f[i] == '.' && '.' !in f[..i]
    ensures i == |f| <==> '.' !in f
  {
    if f == [] then 0 else if f[0] == '.' then 0
    else
      assert f == [f[0]] + f[1..];
      var i := 1 + FirstDot(f[1..]);
      assert i <= |f| ==> f[..i] == [f[0]] + f[1..][..i - 1];
      i
  }

  function ModuleOf(f: string): string
    requires IsDotted(f)
  {
    f[..FirstDot(f)]
  }

  function RestOf(f: string): string
    requires IsDotted(f)
  {
    f[FirstDot(f) + 1..]
  }

  // The conditions on one module, in order.  Undotted fields belong to none.
  function CondsFor(conds: seq<Filter>, m: string): seq<Filter> {
    if conds == [] then []
    else
      var last := conds[|conds| - 1];
      CondsFor(conds[..|conds| - 1], m) + if IsDotted(last.field) && ModuleOf(last.field) == m then [last] else []
  }

  lemma NoConds()
    ensures forall m :: CondsFor([], m) == []
  {}

  lemma CondsForSnoc(conds: seq<Filter>, c: Filter)
    ensures forall m :: CondsFor(conds + [c], m) == CondsFor(conds, m) + if IsDotted(c.field) && ModuleOf(c.field) == m then [c] else []
  {
    assert (conds + [c])[..|conds|] == conds;
  }

  lemma {:induction false} CondsForHas(conds: seq<Filter>, m: string, c: Filter)
    ensures c in CondsFor(conds, m) <==> c in conds && IsDotted(c.field) && ModuleOf(c.field) == m
  {
    if conds != [] {
      var n := |conds| - 1;
      assert conds == conds[..n] + [conds[n]];
      CondsForHas(conds[..n], m, c);
    }
  }

  // Every condition holds of this entry.
  predicate AllHold(conds: seq<Filter>, entry: map<string, Json>, judge: Judge) {
    forall c <- conds ::
      IsDotted(c.field) && RestOf(c.field) in entry && judge(c, entry[RestOf(c.field)])
  }

  // The entries of an array that meet every condition.
  function Kept(items: seq<Json>, conds: seq<Filter>, judge: Judge): seq<Json> {
    if items == [] then []
    else
      var last := items[|items| - 1];
      Kept(items[..|items| - 1], conds, judge) + if last.Obj? && AllHold(conds, last.fields, judge) then [last] else []
  }

  // What is left of one module's data.
  function Survivor(m: string, v: Json, conds: seq<Filter>, judge: Judge): Option<Json> {
    if conds == [] then Some(v)
    else if !v.Obj? then None
    else if m !in ARRAY_MODULE_KEYS then (if AllHold(conds, v.fields, judge) then Some(v) else None)
    else
      var key := ARRAY_MODULE_KEYS[m];
      if key !in v.fields || !v.fields[key].List? then None
      else
        var kept := Kept(v.fields[key].items, conds, judge);
        if |kept| > 0 then Some(Obj(map[key := List(kept)])) else None
  }

  ghost function Filtered(conds: seq<Filter>, data: Data, judge: Judge): Data {
    map m | m in data && Survivor(m, data[m], CondsFor(conds, m), judge).Some? ::
      Survivor(m, data[m], CondsFor(conds, m), judge).value
  }

  method MatchesConditions(conds: seq<Filter>, entry: map<string, Json>, judge: Judge) returns (ok: bool)
    requires forall c <- conds :: IsDotted(c.field)
    ensures ok <==> AllHold(conds, entry, judge)
  {
    for i := 0 to |conds|
      invariant forall c <- conds[..i] :: RestOf(c.field) in entry && judge(c, entry[RestOf(c.field)])
    {
      var c := conds[i];
      assert c in conds;
      if RestOf(c.field) !in entry || !judge(c, entry[RestOf(c.field)]) {
        return false;
      }
      assert conds[..i + 1] == conds[..i] + [c];
    }
    assert conds[..|conds|] == conds;
    return true;
  }

  method FilterArray(items: seq<Json>, conds: seq<Filter>, judge: Judge) returns (kept: seq<Json>)
    requires forall c <- conds :: IsDotted(c.field)
    ensures kept == Kept(items, conds, judge)
  {
    kept := [];
    for i := 0 to |items|
      invariant kept == Kept(items[..i], conds, judge)
    {
      assert items[..i + 1][..i] == items[..i];
      if items[i].Obj? {
        var ok := MatchesConditions(conds, items[i].fields, judge);
        if ok {
          kept := kept + [items[i]];
        }
      }
    }
    assert items[..|items|] == items;
  }

  method GroupByModule(conds: seq<Filter>) returns (groups: map<string, seq<Filter>>)
    ensures forall m :: m in groups <==> CondsFor(conds, m) != []
    ensures forall m <- groups :: groups[m] == CondsFor(conds, m)
  {
    hide CondsFor;
    groups := map[];
    NoConds();
    for i := 0 to |conds|
      invariant forall m :: m in groups <==> CondsFor(conds[..i], m) != []
      invariant forall m <- groups :: groups[m] == CondsFor(conds[..i], m)
    {
      var c := conds[i];
      assert conds[..i + 1] == conds[..i] + [c];
      CondsForSnoc(conds[..i], c);
      if IsDotted(c.field) {
        var m := ModuleOf(c.field);
        groups := groups[m := (if m in groups then groups[m] else []) + [c]];
      }
    }
    assert conds[..|conds|] == conds;
  }

  method FilterModule(m: string, v: Json, conds: seq<Filter>, judge: Judge) returns (left: Option<Json>)
    requires conds != [] && forall c <- conds :: IsDotted(c.field)
    ensures left == Survivor(m, v, conds, judge)
  {
    if !v.Obj? {
      return None;
    }
    if m !in ARRAY_MODULE_KEYS {
      var ok := MatchesConditions(conds, v.fields, judge);
      return if ok then Some(v) else None;
    }
    var key := ARRAY_MODULE_KEYS[m];
    if key !in v.fields || !v.fields[key].List? {
      return None;
    }
    var kept := FilterArray(v.fields[key].items, conds, judge);
    return if |kept| > 0 then Some(Obj(map[key := List(kept)])) else None;
  }

  lemma UnfilteredStays(m: string, v: Json, judge: Judge)
    ensures Survivor(m, v, [], judge) == Some(v)
  {}

  lemma FilteredAt(conds: seq<Filter>, data: Data, judge: Judge, m: string)
    requires m in data
    ensures var left := Survivor(m, data[m], CondsFor(conds, m), judge);
            && (m in Filtered(conds, data, judge) <==> left.Some?)
            && (left.Some? ==> Filtered(conds, data, judge)[m] == left.value)
  {}

  lemma FilteredWithin(conds: seq<Filter>, data: Data, judge: Judge)
    ensures Filtered(conds, data, judge).Keys <= data.Keys
    ensures conds == [] ==> Filtered(conds, data, judge) == data
  {
    if conds == [] { NoConds(); }
  }

  // One module, filtered by the conditions on it if there are any.
  method SurvivorIn(groups: map<string, seq<Filter>>, conds: seq<Filter>, m: string, v: Json, judge: Judge) returns (left: Option<Json>)
    requires m in groups <==> CondsFor(conds, m) != []
    requires m in groups ==> groups[m] == CondsFor(conds, m)
    ensures left == Survivor(m, v, CondsFor(conds, m), judge)
  {
    if m in groups {
      forall c: Filter | c in groups[m] ensures IsDotted(c.field) { CondsForHas(conds, m, c); }
      left := FilterModule(m, v, groups[m], judge);
    } else {
      left := Some(v);
      UnfilteredStays(m, v, judge);
    }
  }

  method FilterCollectedData(conds: seq<Filter>, data: Data, judge: Judge) returns (result: Data)
    ensures result == Filtered(conds, data, judge)
  {
    hide CondsFor, Survivor, Filtered;
    FilteredWithin(conds, data, judge);
    if |conds| == 0 {
      return data;
    }
    ghost var all := Filtered(conds, data, judge);
    var groups := GroupByModule(conds);
    result := map[];
    var rest := data.Keys;
    while rest != {}
      invariant rest <= data.Keys
      invariant forall m :: m in result <==> m in all && m !in rest
      invariant forall m <- result :: result[m] == all[m]
      decreases rest
    {
      var m :| m in rest;
      rest := rest - {m};
      var left := SurvivorIn(groups, conds, m, data[m], judge);
      FilteredAt(conds, data, judge, m);
      if left.Some? {
        result := result[m := left.value];
      }
    }
  }

  method AllFilteredModulesPresent(conds: seq<Filter>, data: Data) returns (present: bool)
    ensures present <==> AllPresent(conds, data)
  {
    for i := 0 to |conds|
      invariant AllPresent(conds[..i], data)
    {
      assert conds[..i + 1] == conds[..i] + [conds[i]];
      if IsDotted(conds[i].field) && ModuleOf(conds[i].field) !in data {
        assert conds[i] in conds;
        return false;
      }
    }
    assert conds[..|conds|] == conds;
    return true;
  }

  ghost predicate AllPresent(conds: seq<Filter>, data: Data) {
    forall c <- conds :: IsDotted(c.field) ==> ModuleOf(c.field) in data
  }

  // --------------------------------------------------------------------
  // What that decides
  // --------------------------------------------------------------------

  // An agent's data seen as rows: a row picks at most one entry per module, an
  // element for array modules and the whole object for the rest.
  type Row = map<string, map<string, Json>>

  ghost predicate IsEntry(m: string, v: Json, entry: map<string, Json>) {
    && v.Obj?
    && if m in ARRAY_MODULE_KEYS then
         ARRAY_MODULE_KEYS[m] in v.fields && v.fields[ARRAY_MODULE_KEYS[m]].List? && Obj(entry) in v.fields[ARRAY_MODULE_KEYS[m]].items
       else entry == v.fields
  }

  ghost predicate IsRow(data: Data, row: Row) {
    forall m <- row :: m in data && IsEntry(m, data[m], row[m])
  }

  ghost predicate CondHolds(c: Filter, row: Row, judge: Judge) {
    && IsDotted(c.field) && ModuleOf(c.field) in row
    && RestOf(c.field) in row[ModuleOf(c.field)]
    && judge(c, row[ModuleOf(c.field)][RestOf(c.field)])
  }

  ghost predicate DottedHold(conds: seq<Filter>, row: Row, judge: Judge) {
    forall c <- conds :: IsDotted(c.field) ==> CondHolds(c, row, judge)
  }

  lemma {:induction false} KeptHas(items: seq<Json>, conds: seq<Filter>, judge: Judge, x: Json)
    ensures x in Kept(items, conds, judge) <==> x in items && x.Obj? && AllHold(conds, x.fields, judge)
  {
    if items != [] {
      var n := |items| - 1;
      assert items == items[..n] + [items[n]];
      KeptHas(items[..n], conds, judge, x);
    }
  }

  // A module survives when one single entry of it meets all its conditions.
  lemma SurvivesIff(m: string, v: Json, conds: seq<Filter>, judge: Judge)
    requires conds != []
    ensures Survivor(m, v, conds, judge).Some? <==> exists entry :: IsEntry(m, v, entry) && AllHold(conds, entry, judge)
  {
    if v.Obj? && m in ARRAY_MODULE_KEYS {
      var key := ARRAY_MODULE_KEYS[m];
      if key in v.fields && v.fields[key].List? {
        var items := v.fields[key].items;
        var kept := Kept(items, conds, judge);
        forall x ensures x in kept <==> x in items && x.Obj? && AllHold(conds, x.fields, judge) {
          KeptHas(items, conds, judge, x);
        }
        if |kept| > 0 {
          assert kept[0] in kept;
          assert Obj(kept[0].fields) == kept[0];
          assert IsEntry(m, v, kept[0].fields);
        }
        if entry :| IsEntry(m, v, entry) && AllHold(conds, entry, judge) {
          assert Obj(entry) in kept;
        }
      }
    } else if v.Obj? {
      assert IsEntry(m, v, v.fields);
    }
  }

  lemma AllHoldIsRow(conds: seq<Filter>, m: string, row: Row, judge: Judge)
    requires m in row
    ensures AllHold(CondsFor(conds, m), row[m], judge) <==>
              forall c <- conds :: IsDotted(c.field) && ModuleOf(c.field) == m ==> CondHolds(c, row, judge)
  {}

  // Filtering and then looking for missing modules answers "is there a row on
  // which every dotted condition holds?" - conditions on one array module must
  // meet in one element, conditions on different modules are independent.
  lemma FilteringFindsRow(conds: seq<Filter>, data: Data, judge: Judge)
    ensures AllPresent(conds, Filtered(conds, data, judge)) <==>
              exists row :: IsRow(data, row) && DottedHold(conds, row, judge)
  {
    if row :| IsRow(data, row) && DottedHold(conds, row, judge) {
      forall c <- conds | IsDotted(c.field) ensures ModuleOf(c.field) in Filtered(conds, data, judge) {
        RowKeepsModule(conds, data, judge, row, c);
      }
    }
    if AllPresent(conds, Filtered(conds, data, judge)) {
      var row := PickRow(conds, data, judge);
    }
  }

  lemma RowKeepsModule(conds: seq<Filter>, data: Data, judge: Judge, row: Row, c: Filter)
    requires IsRow(data, row) && DottedHold(conds, row, judge) && c in conds && IsDotted(c.field)
    ensures ModuleOf(c.field) in Filtered(conds, data, judge)
  {
    var m := ModuleOf(c.field);
    assert CondHolds(c, row, judge);
    CondsForHas(conds, m, c);
    AllHoldIsRow(conds, m, row, judge);
    SurvivesIff(m, data[m], CondsFor(conds, m), judge);
  }

  lemma PickRow(conds: seq<Filter>, data: Data, judge: Judge) returns (row: Row)
    requires AllPresent(conds, Filtered(conds, data, judge))
    ensures IsRow(data, row) && DottedHold(conds, row, judge)
  {
    var used := set m | m in data && m in Filtered(conds, data, judge) && CondsFor(conds, m) != [];
    forall m <- used ensures exists entry :: IsEntry(m, data[m], entry) && AllHold(CondsFor(conds, m), entry, judge) {
      SurvivesIff(m, data[m], CondsFor(conds, m), judge);
    }
    row := map m | m in used :: Chosen(conds, data, judge, m);
    forall c <- conds | IsDotted(c.field) ensures CondHolds(c, row, judge) {
      var m := ModuleOf(c.field);
      CondsForHas(conds, m, c);
      assert m in used;
      AllHoldIsRow(conds, m, row, judge);
    }
  }

  ghost function Chosen(conds: seq<Filter>, data: Data, judge: Judge, m: string): (entry: map<string, Json>)
    requires m in data && exists entry :: IsEntry(m, data[m], entry) && AllHold(CondsFor(conds, m), entry, judge)
    ensures IsEntry(m, data[m], entry) && AllHold(CondsFor(conds, m), entry, judge)
  {
    var entry :| IsEntry(m, data[m], entry) && AllHold(CondsFor(conds, m), entry, judge);
    entry
  }

  // --------------------------------------------------------------------
  // What is left of the data
  // --------------------------------------------------------------------

  // The condition is on field rest of module m.
  ghost predicate IsOn(c: Filter, m: string, rest: string) {
    '.' !in m && c.field == m + "." + rest
  }

  ghost predicate Meets(conds: seq<Filter>, m: string, entry: map<string, Json>, judge: Judge) {
    forall c <- conds, rest | IsOn(c, m, rest) :: rest in entry && judge(c, entry[rest])
  }

  ghost predicate IsFiltered(conds: seq<Filter>, m: string) {
    exists c <- conds, rest :: IsOn(c, m, rest)
  }

  // Names the entries at these positions, which go up, and all that meet the
  // conditions are among them.
  ghost predicate Picks(items: seq<Json>, at: seq<nat>, left: seq<Json>, conds: seq<Filter>, m: string, judge: Judge) {
    && |at| == |left|
    && (forall j | 0 <= j < |at| :: at[j] < |items| && left[j] == items[at[j]])
    && (forall i, j | 0 <= i < j < |at| :: at[i] < at[j])
    && (forall i | 0 <= i < |items| :: i in at <==> items[i].Obj? && Meets(conds, m, items[i].fields, judge))
  }

  ghost predicate IsLeft(items: seq<Json>, left: seq<Json>, conds: seq<Filter>, m: string, judge: Judge) {
    exists at :: Picks(items, at, left, conds, m, judge)
  }

  // v is an array module's object with a list to filter.
  ghost predicate HasItems(m: string, v: Json) {
    m in ARRAY_MODULE_KEYS && v.Obj? && ARRAY_MODULE_KEYS[m] in v.fields && v.fields[ARRAY_MODULE_KEYS[m]].List?
  }

  lemma FieldParts(f: string)
    requires IsDotted(f)
    ensures f == ModuleOf(f) + "." + RestOf(f) && '.' !in ModuleOf(f)
  {
    var i := FirstDot(f);
    assert f == f[..i] + [f[i]] + f[i + 1..];
  }

  lemma IsOnIff(c: Filter, m: string, rest: string)
    ensures IsOn(c, m, rest) <==> IsDotted(c.field) && ModuleOf(c.field) == m && RestOf(c.field) == rest
  {
    if IsDotted(c.field) { FieldParts(c.field); }
    if IsOn(c, m, rest) {
      var f := c.field;
      assert f[|m|] == '.';
      var i := FirstDot(f);
      assert f[..|m|] == m && f[|m| + 1..] == rest;
    }
  }

  lemma MeetsIff(conds: seq<Filter>, m: string, entry: map<string, Json>, judge: Judge)
    ensures Meets(conds, m, entry, judge) <==> AllHold(CondsFor(conds, m), entry, judge)
    ensures IsFiltered(conds, m) <==> CondsFor(conds, m) != []
  {
    forall c: Filter ensures c in CondsFor(conds, m) <==> c in conds && IsDotted(c.field) && ModuleOf(c.field) == m {
      CondsForHas(conds, m, c);
    }
    forall c: Filter, rest ensures IsOn(c, m, rest) <==> IsDotted(c.field) && ModuleOf(c.field) == m && RestOf(c.field) == rest {
      IsOnIff(c, m, rest);
    }
    hide IsOn, CondsFor;
    forall c <- conds | IsDotted(c.field) && ModuleOf(c.field) == m ensures IsOn(c, m, RestOf(c.field)) {}
    if CondsFor(conds, m) != [] {
      var c := CondsFor(conds, m)[0];
      assert c in CondsFor(conds, m);
      assert IsOn(c, m, RestOf(c.field));
    }
  }

  lemma {:induction false} KeptPicks(items: seq<Json>, conds: seq<Filter>, m: string, judge: Judge) returns (at: seq<nat>)
    ensures Picks(items, at, Kept(items, CondsFor(conds, m), judge), conds, m, judge)
  {
    at := [];
    if items != [] {
      hide Meets, CondsFor, Picks;
      var n := |items| - 1;
      at := KeptPicks(items[..n], conds, m, judge);
      if items[n].Obj? { MeetsIff(conds, m, items[n].fields, judge); }
      PicksStep(items, n, at, Kept(items[..n], CondsFor(conds, m), judge), conds, m, judge);
      if items[n].Obj? && Meets(conds, m, items[n].fields, judge) {
        at := at + [n];
      } else {
        assert Kept(items[..n], CondsFor(conds, m), judge) + [] == Kept(items[..n], CondsFor(conds, m), judge);
      }
    }
  }

  lemma PicksStep(items: seq<Json>, n: nat, at: seq<nat>, left: seq<Json>, conds: seq<Filter>, m: string, judge: Judge)
    requires |items| == n + 1 && Picks(items[..n], at, left, conds, m, judge)
    ensures if items[n].Obj? && Meets(conds, m, items[n].fields, judge)
            then Picks(items, at + [n], left + [items[n]], conds, m, judge)
            else Picks(items, at, left, conds, m, judge)
  {
    hide Meets;
    assert forall j | 0 <= j < |at| :: at[j] < n && items[..n][at[j]] == items[at[j]];
    forall i | 0 <= i < n ensures (i in at + [n] <==> i in at) && items[..n][i] == items[i] {}
    assert n !in at && n in at + [n];
  }

  // After filtering, an unfiltered module is as it was; a filtered module that is no
  // array is as it was if it meets its conditions; a filtered array module has its
  // array and nothing else, cut down to the entries that meet them.  Otherwise the
  // module is gone.
  lemma FilteringLeaves(conds: seq<Filter>, data: Data, judge: Judge, m: string)
    ensures m in Filtered(conds, data, judge) ==> m in data
    ensures m in data && !IsFiltered(conds, m) ==> m in Filtered(conds, data, judge) && Filtered(conds, data, judge)[m] == data[m]
    ensures m in data && IsFiltered(conds, m) && m !in ARRAY_MODULE_KEYS ==>
              && (m in Filtered(conds, data, judge) <==> data[m].Obj? && Meets(conds, m, data[m].fields, judge))
              && (m in Filtered(conds, data, judge) ==> Filtered(conds, data, judge)[m] == data[m])
    ensures m in data && IsFiltered(conds, m) && m in ARRAY_MODULE_KEYS && !HasItems(m, data[m]) ==> m !in Filtered(conds, data, judge)
    ensures m in data && IsFiltered(conds, m) && HasItems(m, data[m]) ==>
              exists left ::
                && IsLeft(data[m].fields[ARRAY_MODULE_KEYS[m]].items, left, conds, m, judge)
                && (m in Filtered(conds, data, judge) <==> left != [])
                && (left != [] ==> Filtered(conds, data, judge)[m] == Obj(map[ARRAY_MODULE_KEYS[m] := List(left)]))
  {
    hide CondsFor, Meets, IsFiltered, AllHold, Picks;
    MeetsIff(conds, m, map[], judge);
    if m in data {
      FilteredAt(conds, data, judge, m);
      if data[m].Obj? { MeetsIff(conds, m, data[m].fields, judge); }
      if IsFiltered(conds, m) && HasItems(m, data[m]) {
        var items := data[m].fields[ARRAY_MODULE_KEYS[m]].items;
        var at := KeptPicks(items, conds, m, judge);
        assert IsLeft(items, Kept(items, CondsFor(conds, m), judge), conds, m, judge);
      }
    }
  }
}
