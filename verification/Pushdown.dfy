// Splitting a WHERE between the server's prefilter and the agents' filters.
module Pushdown {
  import opened Expressions
  import opened Filtering
  import opened Options

  // How a comparison value is written into a filter.
  type Printer = Value -> string

  function Join(values: seq<string>): string {
    if values == [] then "" else if |values| == 1 then values[0] else values[0] + "," + Join(values[1..])
  }

  // StripTagFields: tag conditions drop out of AND chains and NOTs; an OR is
  // kept whole.  None is the source's nil.
  function StripTagFields(e: Expr): Option<Expr> {
    match e
    case And(l, r) =>
      var left, right := StripTagFields(l), StripTagFields(r);
      if left.None? then right
      else if right.None? then left
      else Some(And(left.value, right.value))
    case Or(_, _) => Some(e)
    case Not(x) =>
      var inner := StripTagFields(x);
      if inner.None? then None else Some(Not(inner.value))
    case _ => if IsTagField(e.field) then None else Some(e)
  }

  // The filter an agent can evaluate for this leaf, if there is one.
  function LeafFilter(e: Expr, show: Printer): Option<Filter>
    requires e.IsLeaf()
  {
    match e
    case Compare(f, op, v) => Some(Filter(f, op, show(v)))
    case LikeCond(f, pattern, negated) => if negated then None else Some(Filter(f, "LIKE", pattern))
    case In(f, values, negated) => if negated then None else Some(Filter(f, "IN", Join(values)))
    case IsNull(_, _) => None
  }

  // flattenANDs: the filters of a pure AND chain; None for anything else.
  function FlattenANDs(e: Expr, show: Printer): Option<seq<Filter>> {
    match e
    case And(l, r) =>
      var left, right := FlattenANDs(l, show), FlattenANDs(r, show);
      if left.None? || right.None? then None else Some(left.value + right.value)
    case Or(_, _) => None
    case Not(_) => None
    case _ =>
      var f := LeafFilter(e, show);
      if f.None? then None else Some([f.value])
  }

  // ToFilterProtos.  The source's nil, no filters at all, is the empty list.
  function ToFilterProtos(where: Option<Expr>, show: Printer): seq<Filter> {
    if where.None? then []
    else
      var data := StripTagFields(where.value);
      if data.None? then []
      else
        var conds := FlattenANDs(data.value, show);
        if conds.None? then [] else conds.value
  }

  // The WHERE reaches the agents in full, or has nothing for them to check.
  predicate IsPushable(e: Expr, show: Printer) {
    var data := StripTagFields(e);
    data.None? || FlattenANDs(data.value, show).Some?
  }

  // The conditions joined by the ANDs at the top of e, in order.
  function Conjuncts(e: Expr): seq<Expr> {
    if e.And? then Conjuncts(e.left) + Conjuncts(e.right) else [e]
  }

  predicate HasOr(e: Expr) {
    match e
    case Or(_, _) => true
    case And(l, r) => HasOr(l) || HasOr(r)
    case Not(x) => HasOr(x)
    case _ => false
  }

  // Settled by the server: conditions on tags, with no OR among them.
  ghost predicate TagsOnly(e: Expr) {
    !HasOr(e) && forall x <- Leaves(e) :: IsTagField(x.field)
  }

  // A condition that can be sent: not negated, and not IS NULL.
  predicate Sendable(e: Expr) {
    e.Compare? || (e.LikeCond? && !e.negated) || (e.In? && !e.negated)
  }

  ghost function FilterOf(e: Expr, show: Printer): seq<Filter>
    requires TagsOnly(e) || Sendable(e)
  {
    if TagsOnly(e) then [] else [LeafFilter(e, show).value]
  }

  // The filters of those conjuncts that are left to the agents, in order.
  ghost function Filters(es: seq<Expr>, show: Printer): seq<Filter>
    requires forall x <- es :: TagsOnly(x) || Sendable(x)
  {
    if es == [] then []
    else
      assert es[0] in es;
      assert TagsOnly(es[0]) || Sendable(es[0]);
      assert forall x <- es[1..] :: x in es;
      FilterOf(es[0], show) + Filters(es[1..], show)
  }

  lemma {:induction false} StrippedIff(e: Expr)
    ensures StripTagFields(e).None? <==> TagsOnly(e)
  {
    MentionsIff(e);
    match e
    case And(l, r) => StrippedIff(l); StrippedIff(r);
    case Or(_, _) =>
    case Not(x) => StrippedIff(x);
    case _ =>
  }

  lemma {:induction false} FiltersConcat(a: seq<Expr>, b: seq<Expr>, show: Printer)
    requires forall x <- a + b :: TagsOnly(x) || Sendable(x)
    ensures (forall x <- a :: x in a + b) && forall x <- b :: x in a + b
    ensures Filters(a + b, show) == Filters(a, show) + Filters(b, show)
  {
    hide TagsOnly, Sendable, FilterOf;
    if a == [] {
      assert a + b == b;
    } else {
      MoreFilters(a[0], a[1..] + b, a + b, show);
      FiltersConcat(a[1..], b, show);
      MoreFilters(a[0], a[1..], a, show);
      hide Filters;
    }
  }

  lemma MoreFilters(e: Expr, es: seq<Expr>, all: seq<Expr>, show: Printer)
    requires all == [e] + es && forall x <- all :: TagsOnly(x) || Sendable(x)
    ensures (forall x <- es :: x in all) && e in all
    ensures Filters(all, show) == FilterOf(e, show) + Filters(es, show)
  {
    hide TagsOnly, Sendable, FilterOf;
    assert all[0] == e && all[1..] == es;
  }

  // A WHERE can be pushed exactly when each of its conjuncts is settled by the server
  // or is a condition that can be sent; and then the agents get the filters of the
  // latter, in order.
  lemma {:induction false} PushableIff(e: Expr, show: Printer)
    ensures IsPushable(e, show) <==> forall x <- Conjuncts(e) :: TagsOnly(x) || Sendable(x)
    ensures IsPushable(e, show) ==> ToFilterProtos(Some(e), show) == Filters(Conjuncts(e), show)
  {
    hide TagsOnly;
    StrippedIff(e);
    if e.And? {
      PushableIff(e.left, show);
      PushableIff(e.right, show);
      StrippedIff(e.left);
      StrippedIff(e.right);
      ConjunctsOf(e);
      if IsPushable(e.left, show) && IsPushable(e.right, show) {
        FiltersConcat(Conjuncts(e.left), Conjuncts(e.right), show);
      }
    } else {
      OneConjunct(e, show);
    }
  }

  lemma ConjunctsOf(e: Expr)
    requires e.And?
    ensures forall x :: x in Conjuncts(e) <==> x in Conjuncts(e.left) || x in Conjuncts(e.right)
  {}

  lemma OneConjunct(e: Expr, show: Printer)
    requires !e.And? && (StripTagFields(e).None? <==> TagsOnly(e))
    ensures Conjuncts(e) == [e] && (IsPushable(e, show) <==> TagsOnly(e) || Sendable(e))
    ensures IsPushable(e, show) ==> ToFilterProtos(Some(e), show) == Filters([e], show)
  {
    hide TagsOnly;
    assert [e][1..] == [];
  }

  predicate FieldsRecognised(e: Expr) {
    match e
    case And(l, r) => FieldsRecognised(l) && FieldsRecognised(r)
    case Or(l, r) => FieldsRecognised(l) && FieldsRecognised(r)
    case Not(x) => FieldsRecognised(x)
    case _ => IsTagField(e.field) || IsHostnameField(e.field) || IsDotted(e.field)
  }

  // --------------------------------------------------------------------
  // One agent's answer to a query
  // --------------------------------------------------------------------

  // The server dispatches to the agent: the prefilter runs only when the WHERE
  // mentions tags or the hostname.
  ghost predicate Dispatched(where: Option<Expr>, rec: Record) {
    where.None? || ((HasTagConditions(where.value) || HasHostnameCondition(where.value)) ==> MatchesAgentRecord(where.value, rec))
  }

  // The agent answers with data rather than "no match".
  ghost predicate Answers(where: Option<Expr>, rec: Record, data: Data, judge: Judge, show: Printer) {
    var filters := ToFilterProtos(where, show);
    && Dispatched(where, rec)
    && (filters != [] ==> AllPresent(filters, Filtered(filters, data, judge)))
  }

  // What a data condition means on a row: its filter is judged on the row's
  // entry, and IS NULL asks whether the field is missing from it.
  ghost predicate LeafOnRow(e: Expr, row: Row, judge: Judge, show: Printer) {
    match e
    case Compare(f, op, v) => CondHolds(Filter(f, op, show(v)), row, judge)
    case LikeCond(f, pattern, negated) => CondHolds(Filter(f, "LIKE", pattern), row, judge) != negated
    case In(f, values, negated) => CondHolds(Filter(f, "IN", Join(values)), row, judge) != negated
    case IsNull(f, negated) => (IsDotted(f) && ModuleOf(f) in row && RestOf(f) in row[ModuleOf(f)]) == negated
    case _ => false
  }

  // A query without a WHERE selects everyone.
  ghost predicate Selects(where: Option<Expr>, rec: Record, row: Row, judge: Judge, show: Printer) {
    where.None? || Holds(where.value, rec, e => LeafOnRow(e, row, judge, show))
  }

  // --------------------------------------------------------------------
  // Splitting keeps the meaning
  // --------------------------------------------------------------------

  // What strips to nothing is decided by tags alone.
  lemma {:induction false} StrippedAwayIsTags(e: Expr, rec: Record, leaf: Expr -> bool)
    requires StripTagFields(e).None?
    ensures Holds(e, rec, leaf) == MatchesAgentRecord(e, rec)
  {
    match e
    case And(l, r) => StrippedAwayIsTags(l, rec, leaf); StrippedAwayIsTags(r, rec, leaf);
    case Or(_, _) =>
    case Not(x) => StrippedAwayIsTags(x, rec, leaf);
    case _ =>
  }

  // For one record and row, a pushable WHERE holds exactly when the prefilter
  // accepts the record and every dotted filter holds of the row.
  lemma {:induction false} PushdownExactOnRow(e: Expr, rec: Record, row: Row, judge: Judge, show: Printer)
    requires StripTagFields(e).Some? && FlattenANDs(StripTagFields(e).value, show).Some?
    requires FieldsRecognised(e)
    ensures Holds(e, rec, x => LeafOnRow(x, row, judge, show)) <==>
              MatchesAgentRecord(e, rec) && DottedHold(FlattenANDs(StripTagFields(e).value, show).value, row, judge)
  {
    match e
    case And(l, r) =>
      var left, right := StripTagFields(l), StripTagFields(r);
      if left.None? {
        StrippedAwayIsTags(l, rec, x => LeafOnRow(x, row, judge, show));
      } else {
        PushdownExactOnRow(l, rec, row, judge, show);
      }
      if right.None? {
        StrippedAwayIsTags(r, rec, x => LeafOnRow(x, row, judge, show));
      } else {
        PushdownExactOnRow(r, rec, row, judge, show);
      }
      if left.Some? && right.Some? {
        DottedHoldConcat(FlattenANDs(left.value, show).value, FlattenANDs(right.value, show).value, row, judge);
      }
    case Or(_, _) =>
    case Not(_) =>
    case _ =>
      NoDotInHostname();
  }

  lemma DottedHoldConcat(a: seq<Filter>, b: seq<Filter>, row: Row, judge: Judge)
    ensures DottedHold(a + b, row, judge) <==> DottedHold(a, row, judge) && DottedHold(b, row, judge)
  {}

  lemma NoDotInHostname()
    ensures !IsDotted("hostname")
  {}

  lemma {:induction false} NoRecordLeavesMatches(e: Expr, rec: Record, show: Printer)
    requires StripTagFields(e).Some? && FlattenANDs(StripTagFields(e).value, show).Some?
    requires !HasTagConditions(e) && !HasHostnameCondition(e)
    ensures MatchesAgentRecord(e, rec)
  {
    match e
    case And(l, r) =>
      NothingStripped(l);
      NothingStripped(r);
      NoRecordLeavesMatches(l, rec, show);
      NoRecordLeavesMatches(r, rec, show);
    case _ =>
  }

  lemma {:induction false} NothingStripped(e: Expr)
    requires !HasTagConditions(e)
    ensures StripTagFields(e) == Some(e)
  {
    match e
    case And(l, r) => NothingStripped(l); NothingStripped(r);
    case Not(x) => NothingStripped(x);
    case _ =>
  }

  // End to end: for a pushable WHERE over recognised fields, an agent answers
  // exactly when some row of its data satisfies the WHERE.
  lemma AnswersExactly(where: Option<Expr>, rec: Record, data: Data, judge: Judge, show: Printer)
    requires where.Some? ==> IsPushable(where.value, show) && FieldsRecognised(where.value)
    ensures Answers(where, rec, data, judge, show) <==>
              exists row :: IsRow(data, row) && Selects(where, rec, row, judge, show)
  {
    var empty: Row := map[];
    assert IsRow(data, empty);
    if where.Some? {
      var e := where.value;
      if StripTagFields(e).None? {
        forall row ensures Selects(where, rec, row, judge, show) == MatchesAgentRecord(e, rec) {
          StrippedAwayIsTags(e, rec, x => LeafOnRow(x, row, judge, show));
        }
        assert Selects(where, rec, empty, judge, show) == MatchesAgentRecord(e, rec);
        StrippedNeedsTags(e);
      } else {
        PushedAnswers(where, rec, data, judge, show);
      }
    } else {
      assert Selects(where, rec, empty, judge, show);
    }
  }

  lemma {:induction false} StrippedNeedsTags(e: Expr)
    requires StripTagFields(e).None?
    ensures HasTagConditions(e)
  {
    match e
    case And(l, r) => StrippedNeedsTags(l);
    case Not(x) => StrippedNeedsTags(x);
    case _ =>
  }

  lemma PushedAnswers(where: Option<Expr>, rec: Record, data: Data, judge: Judge, show: Printer)
    requires where.Some? && FieldsRecognised(where.value)
    requires StripTagFields(where.value).Some? && FlattenANDs(StripTagFields(where.value).value, show).Some?
    ensures Answers(where, rec, data, judge, show) <==>
              exists row :: IsRow(data, row) && Selects(where, rec, row, judge, show)
  {
    hide Holds, MatchesAgentRecord, FlattenANDs, StripTagFields, AllPresent, Filtered, DottedHold, IsRow;
    var e := where.value;
    var filters := FlattenANDs(StripTagFields(e).value, show).value;
    forall row ensures Selects(where, rec, row, judge, show) <==> MatchesAgentRecord(e, rec) && DottedHold(filters, row, judge) {
      PushdownExactOnRow(e, rec, row, judge, show);
    }
    FilteringFindsRow(filters, data, judge);
    SomeFilter(StripTagFields(e).value, show);
    assert ToFilterProtos(where, show) == filters;
    if !HasTagConditions(e) && !HasHostnameCondition(e) {
      NoRecordLeavesMatches(e, rec, show);
    }
    if row :| IsRow(data, row) && DottedHold(filters, row, judge) {
      assert MatchesAgentRecord(e, rec) ==> Selects(where, rec, row, judge, show);
    }
  }

  lemma {:induction false} SomeFilter(e: Expr, show: Printer)
    requires FlattenANDs(e, show).Some?
    ensures FlattenANDs(e, show).value != []
  {
    if e.And? {
      SomeFilter(e.left, show);
    }
  }

  // A WHERE that cannot be pushed is not evaluated on data anywhere: the answer
  // does not depend on what the agent collected.
  lemma UnpushedIgnoresData(e: Expr, rec: Record, data: Data, judge: Judge, show: Printer)
    requires !IsPushable(e, show)
    ensures Answers(Some(e), rec, data, judge, show) <==> Dispatched(Some(e), rec)
  {}

  // The agent answers exactly when some row of its data satisfies the WHERE.
  ghost predicate ExactOn(e: Expr, rec: Record, data: Data, judge: Judge, show: Printer) {
    Answers(Some(e), rec, data, judge, show) <==> exists row :: IsRow(data, row) && Selects(Some(e), rec, row, judge, show)
  }

  // Data of which the row is a row.
  ghost function DataWith(row: Row): Data {
    map m <- row :: if m in ARRAY_MODULE_KEYS then Obj(map[ARRAY_MODULE_KEYS[m] := List([Obj(row[m])])]) else Obj(row[m])
  }

  lemma EveryRowOccurs(row: Row)
    ensures IsRow(DataWith(row), row)
  {
    forall m <- row ensures IsEntry(m, DataWith(row)[m], row[m]) {
      assert Obj(row[m]) in [Obj(row[m])];
    }
  }

  // The converse of AnswersExactly: a WHERE that cannot be pushed is answered
  // exactly on all data only if an agent it is dispatched to satisfies it without
  // any data, and an agent it is not dispatched to satisfies it on none.
  lemma UnpushedExactIff(e: Expr, rec: Record, judge: Judge, show: Printer)
    requires !IsPushable(e, show)
    ensures (forall data :: ExactOn(e, rec, data, judge, show)) <==>
              if Dispatched(Some(e), rec) then Selects(Some(e), rec, map[], judge, show)
              else forall row :: !Selects(Some(e), rec, row, judge, show)
  {
    hide Holds, MatchesAgentRecord, HasTagConditions, HasHostnameCondition;
    if Dispatched(Some(e), rec) {
      DispatchedExactIff(e, rec, judge, show);
    } else {
      DroppedExactIff(e, rec, judge, show);
    }
  }

  lemma DispatchedExactIff(e: Expr, rec: Record, judge: Judge, show: Printer)
    requires !IsPushable(e, show) && Dispatched(Some(e), rec)
    ensures (forall data :: ExactOn(e, rec, data, judge, show)) <==> Selects(Some(e), rec, map[], judge, show)
  {
    hide Holds, MatchesAgentRecord, HasTagConditions, HasHostnameCondition;
    var empty: Row := map[];
    var nothing: Data := map[];
    if forall data :: ExactOn(e, rec, data, judge, show) {
      assert ExactOn(e, rec, nothing, judge, show);
      var row :| IsRow(nothing, row) && Selects(Some(e), rec, row, judge, show);
      assert row == empty;
    }
    if Selects(Some(e), rec, empty, judge, show) {
      forall data ensures ExactOn(e, rec, data, judge, show) {
        assert IsRow(data, empty);
      }
    }
  }

  lemma DroppedExactIff(e: Expr, rec: Record, judge: Judge, show: Printer)
    requires !IsPushable(e, show) && !Dispatched(Some(e), rec)
    ensures (forall data :: ExactOn(e, rec, data, judge, show)) <==> forall row :: !Selects(Some(e), rec, row, judge, show)
  {
    hide Holds, MatchesAgentRecord, HasTagConditions, HasHostnameCondition;
    if forall data :: ExactOn(e, rec, data, judge, show) {
      forall row ensures !Selects(Some(e), rec, row, judge, show) {
        EveryRowOccurs(row);
        assert ExactOn(e, rec, DataWith(row), judge, show);
      }
    }
  }

  // The second half is settled before the call where the prefilter keeps every
  // agent the WHERE could select: whoever it drops satisfies it on no row.
  lemma DroppedSelectNothing(e: Expr, rec: Record, judge: Judge, show: Printer)
    requires !Dispatched(Some(e), rec) && (DataUnderEvenNots(e) || !Can(e, rec, true))
    ensures forall row :: !Selects(Some(e), rec, row, judge, show)
  {
    forall row ensures !Selects(Some(e), rec, row, judge, show) {
      PrefilterSound(e, rec, x => LeafOnRow(x, row, judge, show));
      OutcomeCan(e, rec, x => LeafOnRow(x, row, judge, show));
    }
  }

  // So a plain OR of comparisons on agent data is answered by everyone, even by
  // an agent that collected nothing and has no row to satisfy it.
  lemma OrIsNotFiltered(a: Expr, b: Expr, rec: Record, judge: Judge, show: Printer)
    requires a.Compare? && b.Compare? && IsDataLeaf(a) && IsDataLeaf(b)
    ensures !IsPushable(Or(a, b), show) && Answers(Some(Or(a, b)), rec, map[], judge, show)
    ensures forall row :: IsRow(map[], row) ==> !Selects(Some(Or(a, b)), rec, row, judge, show)
  {
    assert Dispatched(Some(Or(a, b)), rec);
    forall row | IsRow(map[], row) ensures !Selects(Some(Or(a, b)), rec, row, judge, show) {
      assert row.Keys == {};
      var leaf := e => LeafOnRow(e, row, judge, show);
      assert !leaf(a) && !leaf(b);
      assert !Holds(a, rec, leaf) && !Holds(b, rec, leaf);
      assert !Holds(Or(a, b), rec, leaf);
    }
  }
}
