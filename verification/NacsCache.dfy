/** The verdict of the tables is kept with each flow, under the version of the tables
    (nacs_table.c:395-409, 573-587, 1158-1261).  Evaluations and replacements interleave: a
    replacement swaps a table and then counts the version up, and an evaluation reads the version,
    then the tables one after the other. */
module NacsCache {
  import opened Basics
  import opened NacsRules

  type FlowId = nat

  /** The flags of a flow that the tables decide; `audit` is never cleared. */
  datatype Flags = Flags(
    controlFin: bool, auditFin: bool,
    dropL4: bool, dropL7: bool, acceptL4: bool, acceptL7: bool, audit: bool)

  predicate Has(flags: nat, a: Action) {
    match a
    case Accept => flags % 2 == 1
    case Audit => flags / 2 % 2 == 1
    case Reject => flags / 4 % 2 == 1
  }

  /** flow_flags_clr */
  function Cleared(f: Flags): Flags {
    Flags(false, false, false, false, false, false, f.audit)
  }

  /** process_check_result for the control tables: accepting goes before rejecting. */
  function Controlled(f: Flags, v: Verdict): Flags {
    if v.NoVerdict? then f
    else
      var rejected := Has(v.flags, Reject) && !Has(v.flags, Accept);
      var g := f.(controlFin := true);
      if v.BySet? then (if rejected then g.(dropL4 := true) else g.(acceptL4 := true))
      else (if rejected then g.(dropL7 := true) else g.(acceptL7 := true))
  }

  /** process_check_result for the audit tables. */
  function Audited(f: Flags, v: Verdict): Flags {
    if v.NoVerdict? then f
    else if Has(v.flags, Audit) then f.(auditFin := true, audit := true)
    else f.(auditFin := true)
  }

  /** What an evaluation makes of a flow when nothing happens meanwhile. */
  ghost function Fresh(f: Flags, control: Config, audit: Config, q: Request): Flags {
    Audited(Controlled(Cleared(f), Lookup(control, q)), Lookup(audit, q))
  }

  /** The flags for accepting, dropping and having finished. */
  ghost predicate SameVerdict(f: Flags, g: Flags) {
    f.(audit := g.audit) == g
  }

  // ----- The machine -----

  /** Where the evaluation of a flow is: it holds the version it read. */
  datatype Progress = Resting | Read(magic: nat, q: Request) | Clear(magic: nat, q: Request)
    | ControlDone(magic: nat, q: Request) | AuditDone(magic: nat, q: Request)

  /** `last` is the packet of the last evaluation that was completed. */
  datatype Flow = Flow(magic: nat, flags: Flags, at: Progress, last: Option<Request>)

  /** `swapped`: a replacement has swapped and not counted up yet; replacements exclude each other. */
  datatype State = State(control: Config, audit: Config, magic: nat, swapped: bool, flows: map<FlowId, Flow>)

  datatype Step =
    | SwapControl(c: Config) | SwapAudit(c: Config) | CountUp
    | Hook(f: FlowId, q: Request) | ClearFlags(f: FlowId) | DoControl(f: FlowId) | DoAudit(f: FlowId) | Keep(f: FlowId)

  function With(s: State, f: FlowId, x: Flow): State {
    s.(flows := s.flows[f := x])
  }

  ghost predicate Start(s: State) {
    && s.magic == 999 && !s.swapped
    && forall f :: f in s.flows ==> s.flows[f].at == Resting && s.flows[f].last == None && s.flows[f].magic <= s.magic
  }

  ghost predicate Next(s: State, e: Step, t: State) {
    match e
    case SwapControl(c) => !s.swapped && t == s.(control := c, swapped := true)
    case SwapAudit(c) => !s.swapped && t == s.(audit := c, swapped := true)
    case CountUp => s.swapped && t == s.(magic := s.magic + 1, swapped := false)
    case Hook(f, q) =>
      && f in s.flows && s.flows[f].at == Resting
      && t == if q.proto == 0 || s.flows[f].magic == s.magic then s
              else With(s, f, s.flows[f].(at := Read(s.magic, q)))
    case ClearFlags(f) =>
      && f in s.flows && s.flows[f].at.Read?
      && var x := s.flows[f];
         t == With(s, f, x.(flags := Cleared(x.flags), at := Clear(x.at.magic, x.at.q)))
    case DoControl(f) =>
      && f in s.flows && s.flows[f].at.Clear?
      && var x := s.flows[f];
         t == With(s, f, x.(flags := Controlled(x.flags, Lookup(s.control, x.at.q)), at := ControlDone(x.at.magic, x.at.q)))
    case DoAudit(f) =>
      && f in s.flows && s.flows[f].at.ControlDone?
      && var x := s.flows[f];
         t == With(s, f, x.(flags := Audited(x.flags, Lookup(s.audit, x.at.q)), at := AuditDone(x.at.magic, x.at.q)))
    case Keep(f) =>
      && f in s.flows && s.flows[f].at.AuditDone?
      && var x := s.flows[f];
         t == With(s, f, x.(magic := x.at.magic, at := Resting, last := Some(x.at.q)))
  }

  // ----- Coherence -----

  /** A version that a flow holds is current: it is the table's, and no replacement is under way. */
  ghost predicate Current(s: State, magic: nat) {
    magic == s.magic && !s.swapped
  }

  /** The flags of a flow are what a fresh evaluation for its packet would give. */
  ghost predicate IsFresh(s: State, flags: Flags, q: Request) {
    SameVerdict(flags, Fresh(flags, s.control, s.audit, q))
  }

  ghost predicate FlowOk(s: State, x: Flow) {
    && x.magic <= s.magic
    && (x.last.Some? && x.at.Resting? && Current(s, x.magic) ==> IsFresh(s, x.flags, x.last.value))
    && (!x.at.Resting? ==> x.magic < x.at.magic <= s.magic)
    && match x.at
       case Resting => true
       case Read(_, _) => true
       case Clear(m, q) => x.flags == Cleared(x.flags)
       case ControlDone(m, q) =>
         Current(s, m) ==> SameVerdict(x.flags, Controlled(Cleared(x.flags), Lookup(s.control, q)))
       case AuditDone(m, q) => Current(s, m) ==> IsFresh(s, x.flags, q)
  }

  ghost predicate Inv(s: State) {
    forall f :: f in s.flows ==> FlowOk(s, s.flows[f])
  }

  lemma ControlStep(f: Flags, v: Verdict)
    requires f == Cleared(f)
    ensures SameVerdict(Controlled(f, v), Controlled(Cleared(Controlled(f, v)), v))
  {
  }

  lemma AuditStep(f: Flags, v: Verdict, w: Verdict)
    requires SameVerdict(f, Controlled(Cleared(f), v))
    ensures SameVerdict(Audited(f, w), Audited(Controlled(Cleared(Audited(f, w)), v), w))
  {
    hide Has;
    var b := w != NoVerdict && Has(w.flags, Audit);
  }

  lemma StepKeeps(s: State, e: Step, t: State)
    requires Inv(s) && Next(s, e, t)
    ensures Inv(t)
  {
    hide Lookup, Has, Controlled, Audited, SameVerdict;
    if e.DoControl? {
      var x := s.flows[e.f];
      assert FlowOk(s, x);
      ControlStep(x.flags, Lookup(s.control, x.at.q));
    }
    if e.DoAudit? {
      var x := s.flows[e.f];
      assert FlowOk(s, x);
      if Current(s, x.at.magic) {
        AuditStep(x.flags, Lookup(s.control, x.at.q), Lookup(s.audit, x.at.q));
      }
    }
    forall f | f in t.flows ensures FlowOk(t, t.flows[f]) {
      assert f in s.flows && FlowOk(s, s.flows[f]);
    }
  }

  ghost predicate IsRun(states: seq<State>, steps: seq<Step>) {
    && |states| == |steps| + 1 && Start(states[0])
    && forall i :: 0 <= i < |steps| ==> Next(states[i], steps[i], states[i + 1])
  }

  lemma {:induction false} RunKeeps(states: seq<State>, steps: seq<Step>, n: nat)
    requires IsRun(states, steps) && n < |states|
    ensures Inv(states[n])
  {
    if n > 0 {
      RunKeeps(states, steps, n - 1);
      StepKeeps(states[n - 1], steps[n - 1], states[n]);
    }
  }

  /** In every run, whenever no replacement is between its swap and its count: the verdict kept with
      a flow under the version of the tables is the one a fresh evaluation would give. */
  lemma KeptVerdictIsFresh(states: seq<State>, steps: seq<Step>, n: nat, f: FlowId)
    requires IsRun(states, steps) && n < |states| && f in states[n].flows
    requires var s, x := states[n], states[n].flows[f];
             !s.swapped && x.at == Resting && x.last.Some? && x.magic == s.magic
    ensures var s, x := states[n], states[n].flows[f];
            SameVerdict(x.flags, Fresh(x.flags, s.control, s.audit, x.last.value))
  {
    RunKeeps(states, steps, n);
    assert FlowOk(states[n], states[n].flows[f]);
  }

  lemma EarlyLookups(empty: Config, black: Config, q: Request)
    requires empty == Config([], []) && black == Config([SetEntry(Some(7), 4)], []) && 7 in q.macSets
    ensures Lookup(empty, q) == NoVerdict && Lookup(black, q) == BySet(4)
  {
    assert InSet(0, black.sets[0], q);
  }

  /** The condition is needed: between a swap and its count a flow may hold the version of the
      tables and a verdict they no longer give. */
  lemma SwapIsVisibleEarly() returns (states: seq<State>, steps: seq<Step>)
    ensures IsRun(states, steps)
    ensures var s := states[|steps|];
            && 0 in s.flows && s.flows[0].magic == s.magic && s.flows[0].last.Some?
            && !SameVerdict(s.flows[0].flags, Fresh(s.flows[0].flags, s.control, s.audit, s.flows[0].last.value))
  {
    var empty := Config([], []);
    var black := Config([SetEntry(Some(7), 4)], []);
    var q := Request(0, {}, 0, {}, 1, {7}, {});
    var clear := Flags(false, false, false, false, false, false, false);
    var x := Flow(0, clear, Resting, None);
    EarlyLookups(empty, black, q);
    hide Lookup;
    var s0 := State(empty, empty, 999, false, map[0 := x]);
    var s1 := With(s0, 0, x.(at := Read(999, q)));
    var s2 := With(s1, 0, x.(at := Clear(999, q)));
    var s3 := With(s2, 0, x.(at := ControlDone(999, q)));
    var s4 := With(s3, 0, x.(at := AuditDone(999, q)));
    var s5 := With(s4, 0, x.(magic := 999, last := Some(q)));
    var s6 := s5.(control := black, swapped := true);
    states := [s0, s1, s2, s3, s4, s5, s6];
    steps := [Hook(0, q), ClearFlags(0), DoControl(0), DoAudit(0), Keep(0), SwapControl(black)];
  }
}
