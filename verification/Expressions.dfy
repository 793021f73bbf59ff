// WHERE expressions and the server's test of an agent's own record.
module Expressions {

  datatype Value = Num(n: real) | Str(s: string)

  datatype Expr =
    | And(left: Expr, right: Expr)
    | Or(left: Expr, right: Expr)
    | Not(inner: Expr)
    | Compare(field: string, op: string, value: Value)
    | LikeCond(field: string, pattern: string, negated: bool)
    | In(field: string, values: seq<string>, negated: bool)
    | IsNull(field: string, negated: bool)
  {
    predicate IsLeaf() {
      Compare? || LikeCond? || In? || IsNull?
    }
  }

  // What the server knows of an agent.  like is its pattern matcher, case
  // folding included.
  datatype Record = Record(tags: map<string, string>, hostname: string, like: (string, string) -> bool)

  function IsTagField(field: string): bool {
    "tag." <= field
  }

  function TagKey(field: string): string
    requires IsTagField(field)
  {
    field[4..]
  }

  function IsHostnameField(field: string): bool {
    field == "hostname"
  }

  function IsDotted(field: string): bool {
    '.' in field
  }

  // A condition on something the agent itself reports.
  function IsDataLeaf(e: Expr): bool {
    e.IsLeaf() && !IsTagField(e.field) && !IsHostnameField(e.field)
  }

  // A condition on a known string: a tag's value or the hostname.
  function TestString(e: Expr, actual: string, rec: Record): bool
    requires e.Compare? || e.LikeCond? || e.In?
  {
    match e
    case Compare(_, op, v) =>
      if v.Str? && op == "=" then actual == v.s
      else if v.Str? && op == "!=" then actual != v.s
      else false
    case LikeCond(_, pattern, negated) => rec.like(actual, pattern) != negated
    case In(_, values, negated) => (actual in values) != negated
  }

  function TestTag(e: Expr, rec: Record): bool
    requires e.IsLeaf() && IsTagField(e.field)
  {
    var key := TagKey(e.field);
    if key !in rec.tags then
      match e
      case Compare(_, op, _) => op == "!="
      case LikeCond(_, _, negated) => negated
      case In(_, _, negated) => negated
      case IsNull(_, negated) => !negated
    else if e.IsNull? then e.negated
    else TestString(e, rec.tags[key], rec)
  }

  function TestHostname(e: Expr, rec: Record): bool
    requires e.IsLeaf() && IsHostnameField(e.field)
  {
    if e.IsNull? then (if e.negated then rec.hostname != "" else rec.hostname == "")
    else TestString(e, rec.hostname, rec)
  }

  // The server's prefilter: tag and hostname conditions are evaluated, data
  // conditions are taken to hold.
  function MatchesAgentRecord(e: Expr, rec: Record): bool {
    match e
    case And(l, r) => MatchesAgentRecord(l, rec) && MatchesAgentRecord(r, rec)
    case Or(l, r) => MatchesAgentRecord(l, rec) || MatchesAgentRecord(r, rec)
    case Not(x) => !MatchesAgentRecord(x, rec)
    case _ =>
      if IsHostnameField(e.field) then TestHostname(e, rec)
      else if IsTagField(e.field) then TestTag(e, rec)
      else true
  }

  function HasTagConditions(e: Expr): bool {
    match e
    case And(l, r) => HasTagConditions(l) || HasTagConditions(r)
    case Or(l, r) => HasTagConditions(l) || HasTagConditions(r)
    case Not(x) => HasTagConditions(x)
    case _ => IsTagField(e.field)
  }

  function HasHostnameCondition(e: Expr): bool {
    match e
    case And(l, r) => HasHostnameCondition(l) || HasHostnameCondition(r)
    case Or(l, r) => HasHostnameCondition(l) || HasHostnameCondition(r)
    case Not(x) => HasHostnameCondition(x)
    case _ => IsHostnameField(e.field)
  }

  // The conditions of e.
  function Leaves(e: Expr): (leaves: set<Expr>)
    ensures forall x <- leaves :: x.IsLeaf()
  {
    match e
    case And(l, r) => Leaves(l) + Leaves(r)
    case Or(l, r) => Leaves(l) + Leaves(r)
    case Not(x) => Leaves(x)
    case _ => {e}
  }

  // What decides whether the prefilter runs: whether any condition, wherever it
  // stands, is on a tag or on the hostname.
  lemma {:induction false} MentionsIff(e: Expr)
    ensures HasTagConditions(e) <==> exists x <- Leaves(e) :: "tag." <= x.field
    ensures HasHostnameCondition(e) <==> exists x <- Leaves(e) :: x.field == "hostname"
  {
    match e
    case And(l, r) => MentionsIff(l); MentionsIff(r);
    case Or(l, r) => MentionsIff(l); MentionsIff(r);
    case Not(x) => MentionsIff(x);
    case _ =>
  }

  // --------------------------------------------------------------------
  // What the record conditions mean
  // --------------------------------------------------------------------

  // What a record shows in a field; a tag the agent does not carry shows nothing.
  ghost predicate Shows(rec: Record, f: string, value: string) {
    (f == "hostname" && rec.hostname == value) || exists key <- rec.tags :: f == "tag." + key && rec.tags[key] == value
  }

  ghost predicate IsRecordField(f: string) {
    f == "hostname" || exists key :: f == "tag." + key
  }

  lemma RecordFieldCases(f: string, rec: Record)
    requires IsRecordField(f)
    ensures IsTagField(f) != IsHostnameField(f)
    ensures IsHostnameField(f) ==> forall v :: Shows(rec, f, v) <==> v == rec.hostname
    ensures IsTagField(f) ==> f == "tag." + TagKey(f) && forall v :: Shows(rec, f, v) <==> TagKey(f) in rec.tags && rec.tags[TagKey(f)] == v
  {
    assert "tag."[0] == 't' && "hostname"[0] == 'h';
    if key :| f == "tag." + key {
      assert f[4..] == key;
    }
    if IsTagField(f) {
      assert f == "tag." + f[4..];
      forall key | f == "tag." + key ensures key == TagKey(f) { assert f[4..] == key; }
    }
  }

  // What the positive forms say of the value shown.
  lemma PositiveForms(f: string, text: string, values: seq<string>, rec: Record)
    requires IsRecordField(f)
    ensures MatchesAgentRecord(Compare(f, "=", Str(text)), rec) <==> Shows(rec, f, text)
    ensures MatchesAgentRecord(In(f, values, false), rec) <==> exists v <- values :: Shows(rec, f, v)
    ensures MatchesAgentRecord(LikeCond(f, text, false), rec) <==> exists v :: Shows(rec, f, v) && rec.like(v, text)
    ensures MatchesAgentRecord(IsNull(f, false), rec) <==> forall v :: Shows(rec, f, v) ==> f == "hostname" && v == ""
  {
    RecordFieldCases(f, rec);
    if IsTagField(f) {
      if TagKey(f) in rec.tags { assert Shows(rec, f, rec.tags[TagKey(f)]); }
    } else {
      assert Shows(rec, f, rec.hostname);
    }
  }

  // Every negative form is the NOT of its positive form.
  lemma NegativeForms(f: string, text: string, values: seq<string>, rec: Record)
    requires IsRecordField(f)
    ensures MatchesAgentRecord(Compare(f, "!=", Str(text)), rec) == MatchesAgentRecord(Not(Compare(f, "=", Str(text))), rec)
    ensures MatchesAgentRecord(In(f, values, true), rec) == MatchesAgentRecord(Not(In(f, values, false)), rec)
    ensures MatchesAgentRecord(LikeCond(f, text, true), rec) == MatchesAgentRecord(Not(LikeCond(f, text, false)), rec)
    ensures MatchesAgentRecord(IsNull(f, true), rec) == MatchesAgentRecord(Not(IsNull(f, false)), rec)
  {
    RecordFieldCases(f, rec);
  }

  // No other comparison holds of a record, except that an absent tag differs from
  // every number too.
  lemma OtherComparisons(f: string, op: string, value: Value, rec: Record)
    requires IsRecordField(f) && (value.Num? || (op != "=" && op != "!="))
    ensures MatchesAgentRecord(Compare(f, op, value), rec) <==> op == "!=" && forall v :: !Shows(rec, f, v)
  {
    RecordFieldCases(f, rec);
    if IsTagField(f) {
      if TagKey(f) in rec.tags { assert Shows(rec, f, rec.tags[TagKey(f)]); }
    } else {
      assert Shows(rec, f, rec.hostname);
    }
  }

  // --------------------------------------------------------------------
  // What a WHERE means
  // --------------------------------------------------------------------

  // The WHERE on an agent whose data leaves evaluate as `leaf` says.
  ghost predicate Holds(e: Expr, rec: Record, leaf: Expr -> bool) {
    match e
    case And(l, r) => Holds(l, rec, leaf) && Holds(r, rec, leaf)
    case Or(l, r) => Holds(l, rec, leaf) || Holds(r, rec, leaf)
    case Not(x) => !Holds(x, rec, leaf)
    case _ =>
      if IsHostnameField(e.field) then TestHostname(e, rec)
      else if IsTagField(e.field) then TestTag(e, rec)
      else leaf(e)
  }

  // Every data condition sits under an even (odd) number of NOTs.
  predicate DataUnderEvenNots(e: Expr) {
    match e
    case And(l, r) => DataUnderEvenNots(l) && DataUnderEvenNots(r)
    case Or(l, r) => DataUnderEvenNots(l) && DataUnderEvenNots(r)
    case Not(x) => DataUnderOddNots(x)
    case _ => true
  }

  predicate DataUnderOddNots(e: Expr) {
    match e
    case And(l, r) => DataUnderOddNots(l) && DataUnderOddNots(r)
    case Or(l, r) => DataUnderOddNots(l) && DataUnderOddNots(r)
    case Not(x) => DataUnderEvenNots(x)
    case _ => !IsDataLeaf(e)
  }

  // Taking data conditions to hold never drops an agent the WHERE selects,
  // provided no data condition is negated on balance.
  lemma {:induction false} PrefilterSound(e: Expr, rec: Record, leaf: Expr -> bool)
    ensures DataUnderEvenNots(e) && Holds(e, rec, leaf) ==> MatchesAgentRecord(e, rec)
    ensures DataUnderOddNots(e) && MatchesAgentRecord(e, rec) ==> Holds(e, rec, leaf)
  {
    match e
    case And(l, r) => PrefilterSound(l, rec, leaf); PrefilterSound(r, rec, leaf);
    case Or(l, r) => PrefilterSound(l, rec, leaf); PrefilterSound(r, rec, leaf);
    case Not(x) => PrefilterSound(x, rec, leaf);
    case _ =>
  }

  // --------------------------------------------------------------------
  // When the prefilter keeps every selected agent
  // --------------------------------------------------------------------

  // The conditions on data in e.
  function DataLeaves(e: Expr): set<Expr> {
    match e
    case And(l, r) => DataLeaves(l) + DataLeaves(r)
    case Or(l, r) => DataLeaves(l) + DataLeaves(r)
    case Not(x) => DataLeaves(x)
    case _ => if IsDataLeaf(e) then {e} else {}
  }

  // No data condition occurs twice.
  predicate DistinctData(e: Expr) {
    match e
    case And(l, r) => DistinctData(l) && DistinctData(r) && DataLeaves(l) !! DataLeaves(r)
    case Or(l, r) => DistinctData(l) && DistinctData(r) && DataLeaves(l) !! DataLeaves(r)
    case Not(x) => DistinctData(x)
    case _ => true
  }

  // With data conditions free to go either way, can e come out as v on this
  // record?  One pass over the WHERE decides it, before anything is collected.
  predicate Can(e: Expr, rec: Record, v: bool) {
    match e
    case And(l, r) => if v then Can(l, rec, true) && Can(r, rec, true) else Can(l, rec, false) || Can(r, rec, false)
    case Or(l, r) => if v then Can(l, rec, true) || Can(r, rec, true) else Can(l, rec, false) && Can(r, rec, false)
    case Not(x) => Can(x, rec, !v)
    case _ => IsDataLeaf(e) || MatchesAgentRecord(e, rec) == v
  }

  // What comes out can come out.
  lemma {:induction false} OutcomeCan(e: Expr, rec: Record, leaf: Expr -> bool)
    ensures Can(e, rec, Holds(e, rec, leaf))
  {
    match e
    case And(l, r) => OutcomeCan(l, rec, leaf); OutcomeCan(r, rec, leaf);
    case Or(l, r) => OutcomeCan(l, rec, leaf); OutcomeCan(r, rec, leaf);
    case Not(x) => OutcomeCan(x, rec, leaf);
    case _ =>
  }

  // e when exactly the data conditions in yes hold.
  ghost predicate HoldsWith(e: Expr, rec: Record, yes: set<Expr>) {
    Holds(e, rec, x => x in yes)
  }

  // Only the data conditions of e matter to it.
  lemma {:induction false} OnlyItsLeavesMatter(e: Expr, rec: Record, leaf: Expr -> bool, yes: set<Expr>)
    requires forall x <- DataLeaves(e) :: leaf(x) <==> x in yes
    ensures Holds(e, rec, leaf) == HoldsWith(e, rec, yes)
  {
    match e
    case And(l, r) => OnlyItsLeavesMatter(l, rec, leaf, yes); OnlyItsLeavesMatter(r, rec, leaf, yes);
    case Or(l, r) => OnlyItsLeavesMatter(l, rec, leaf, yes); OnlyItsLeavesMatter(r, rec, leaf, yes);
    case Not(x) => OnlyItsLeavesMatter(x, rec, leaf, yes);
    case _ =>
  }

  lemma OtherLeavesDoNot(e: Expr, rec: Record, yes: set<Expr>, more: set<Expr>)
    requires more !! DataLeaves(e)
    ensures HoldsWith(e, rec, yes + more) == HoldsWith(e, rec, yes)
  {
    OnlyItsLeavesMatter(e, rec, x => x in yes + more, yes);
  }

  // Where no condition occurs twice, what can come out does for some data.
  lemma {:induction false} CanIsAttained(e: Expr, rec: Record, v: bool) returns (yes: set<Expr>)
    requires DistinctData(e) && Can(e, rec, v)
    ensures yes <= DataLeaves(e) && HoldsWith(e, rec, yes) == v
    decreases e, 0
  {
    match e
    case And(l, r) =>
      var a := AttainedIf(l, rec, v);
      var b := AttainedIf(r, rec, v);
      BothSides(l, r, rec, a, b);
      yes := a + b;
    case Or(l, r) =>
      var a := AttainedIf(l, rec, v);
      var b := AttainedIf(r, rec, v);
      BothSides(l, r, rec, a, b);
      yes := a + b;
    case Not(x) =>
      yes := CanIsAttained(x, rec, !v);
      NotFlips(x, rec, yes);
    case _ =>
      yes := if IsDataLeaf(e) && v then {e} else {};
  }

  lemma {:induction false} AttainedIf(e: Expr, rec: Record, v: bool) returns (yes: set<Expr>)
    requires DistinctData(e)
    ensures yes <= DataLeaves(e) && (Can(e, rec, v) ==> HoldsWith(e, rec, yes) == v)
    decreases e, 1
  {
    yes := {};
    if Can(e, rec, v) { yes := CanIsAttained(e, rec, v); }
  }

  lemma BothSides(l: Expr, r: Expr, rec: Record, a: set<Expr>, b: set<Expr>)
    requires DataLeaves(l) !! DataLeaves(r) && a <= DataLeaves(l) && b <= DataLeaves(r)
    ensures HoldsWith(And(l, r), rec, a + b) == (HoldsWith(l, rec, a) && HoldsWith(r, rec, b))
    ensures HoldsWith(Or(l, r), rec, a + b) == (HoldsWith(l, rec, a) || HoldsWith(r, rec, b))
  {
    OtherLeavesDoNot(l, rec, a, b);
    OtherLeavesDoNot(r, rec, b, a);
    assert a + b == b + a;
  }

  lemma NotFlips(x: Expr, rec: Record, yes: set<Expr>)
    ensures HoldsWith(Not(x), rec, yes) == !HoldsWith(x, rec, yes)
  {}

  // The prefilter drops no agent the WHERE selects if it accepts the record or
  // the WHERE cannot come out true on it, whatever the polarity; and where no
  // data condition occurs twice, only then.
  lemma PrefilterKeepsIff(e: Expr, rec: Record)
    ensures MatchesAgentRecord(e, rec) || !Can(e, rec, true) ==> PrefilterKeeps(e, rec)
    ensures DistinctData(e) ==> (PrefilterKeeps(e, rec) <==> MatchesAgentRecord(e, rec) || !Can(e, rec, true))
  {
    forall leaf: Expr -> bool | Holds(e, rec, leaf) ensures Can(e, rec, true) {
      OutcomeCan(e, rec, leaf);
    }
    if DistinctData(e) && Can(e, rec, true) {
      var yes := CanIsAttained(e, rec, true);
      var leaf: Expr -> bool := x => x in yes;
      assert Holds(e, rec, leaf);
    }
  }

  ghost predicate PrefilterKeeps(e: Expr, rec: Record) {
    forall leaf: Expr -> bool :: Holds(e, rec, leaf) ==> MatchesAgentRecord(e, rec)
  }

  // With repeated conditions too it is a finite question: one case for each way
  // the conditions that occur can come out.
  lemma PrefilterKeepsByCases(e: Expr, rec: Record)
    ensures PrefilterKeeps(e, rec) <==> MatchesAgentRecord(e, rec) || forall yes | yes <= DataLeaves(e) :: !HoldsWith(e, rec, yes)
  {
    if yes :| yes <= DataLeaves(e) && HoldsWith(e, rec, yes) {
      var leaf: Expr -> bool := x => x in yes;
      assert Holds(e, rec, leaf);
    }
    forall leaf: Expr -> bool | Holds(e, rec, leaf) ensures exists yes :: yes <= DataLeaves(e) && HoldsWith(e, rec, yes) {
      var yes := set x | x in DataLeaves(e) && leaf(x);
      OnlyItsLeavesMatter(e, rec, leaf, yes);
    }
  }

  predicate NoDataLeaves(e: Expr) {
    match e
    case And(l, r) => NoDataLeaves(l) && NoDataLeaves(r)
    case Or(l, r) => NoDataLeaves(l) && NoDataLeaves(r)
    case Not(x) => NoDataLeaves(x)
    case _ => !IsDataLeaf(e)
  }

  lemma {:induction false} PrefilterExactWithoutData(e: Expr, rec: Record, leaf: Expr -> bool)
    requires NoDataLeaves(e)
    ensures MatchesAgentRecord(e, rec) == Holds(e, rec, leaf)
  {
    match e
    case And(l, r) => PrefilterExactWithoutData(l, rec, leaf); PrefilterExactWithoutData(r, rec, leaf);
    case Or(l, r) => PrefilterExactWithoutData(l, rec, leaf); PrefilterExactWithoutData(r, rec, leaf);
    case Not(x) => PrefilterExactWithoutData(x, rec, leaf);
    case _ =>
  }

  // The prefilter is the WHERE with every data condition assumed true, which is
  // all it takes to say exactly when it drops agents it should keep.
  lemma {:induction false} PrefilterAssumesData(e: Expr, rec: Record)
    ensures MatchesAgentRecord(e, rec) == Holds(e, rec, _ => true)
  {
    match e
    case And(l, r) => PrefilterAssumesData(l, rec); PrefilterAssumesData(r, rec);
    case Or(l, r) => PrefilterAssumesData(l, rec); PrefilterAssumesData(r, rec);
    case Not(x) => PrefilterAssumesData(x, rec);
    case _ =>
  }

  // NOT over a data condition next to a tag condition: an agent the WHERE
  // selects is never even asked.
  lemma NegatedDataIsDropped(rec: Record)
    requires "env" in rec.tags && rec.tags["env"] == "prod"
    ensures var e := And(Compare("tag.env", "=", Str("prod")), Not(Compare("cpu.cores", "=", Num(4.0))));
            Holds(e, rec, _ => false) && !MatchesAgentRecord(e, rec)
  {
    var tag := Compare("tag.env", "=", Str("prod"));
    assert "tag.env"[4..] == "env";
    assert TestTag(tag, rec);
    var data := Compare("cpu.cores", "=", Num(4.0));
    assert "cpu.cores"[0] == 'c' && "tag."[0] == 't';
    assert !IsTagField("cpu.cores") && !IsHostnameField("cpu.cores");
    assert MatchesAgentRecord(data, rec) && !MatchesAgentRecord(Not(data), rec);
  }
}
