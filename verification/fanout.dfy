/**
  The fan-out as a transition system: any number of requests, each working through its
  hosts one at a time, interleave in any way; every call into the policy engine, the
  audit log and the bridge may fail, and an audit append may fail after taking effect.
 */
module Fanout {
  import opened Wrappers
  import opened Uuid
  import opened Audit
  import opened Policy
  import opened Service

  /** What is recorded of a decision. */
  datatype Line = Line(subject: string, kind: string, target: string, runAs: string, decision: Decision)

  /** A host, and the text that names it to the policy engine and the audit log. */
  datatype Target = Target(host: HostId, text: string)

  datatype Reason = Unavailable | Denied | BridgeDown

  /** The order in which effects happened: audit entries, commands to the bridge, errors told to operators. */
  datatype Entry =
    | Logged(line: Line)
    | Commanded(r: nat, target: Target, kind: string, runAs: string)
    | Told(r: nat, target: Target, reason: Reason)

  datatype Phase = Deciding | Logging(decision: Decision) | Acting(decision: Decision)

  /** One request; `at` counts the targets it is done with. */
  datatype Request = Request(subject: string, kind: string, runAs: string, targets: seq<Target>, at: nat, phase: Phase)

  datatype State = State(requests: map<nat, Request>, journal: seq<Entry>)

  datatype Choice = Go | Fail | FailAfter

  /** An exec names its hosts by a selector, a shell its one host by any spelling of its id. */
  datatype Event =
    | Exec(r: nat, subject: string, kind: string, runAs: string, selector: string, online: Option<seq<HostId>>)
    | Shell(r: nat, subject: string, runAs: string, spelling: string)
    | Advance(r: nat, c: Choice)

  datatype Config = Config(bindings: seq<Binding>, parse: UuidParser) {
    ghost predicate ParsesText() {
      forall h: HostId :: parse(Text(h)) == Some(h)
    }
  }

  ghost function Decide(cfg: Config, q: Request, t: Target): Decision {
    if cfg.parse(t.text).Some? && Granted(cfg.bindings, q.subject, q.kind, cfg.parse(t.text).value, q.runAs) then Allow
    else Deny
  }

  function LineFor(q: Request, t: Target, d: Decision): Line {
    Line(q.subject, q.kind, t.text, q.runAs, d)
  }

  /** An exec's hosts are recorded in the canonical text of their ids. */
  function Canonical(hosts: seq<HostId>): (targets: seq<Target>)
    ensures |targets| == |hosts| && forall i | 0 <= i < |hosts| :: targets[i] == Target(hosts[i], Text(hosts[i]))
  {
    seq(|hosts|, i requires 0 <= i < |hosts| => Target(hosts[i], Text(hosts[i])))
  }

  /** What a request works through; none if it is refused before anything is decided or recorded. */
  function Admitted(cfg: Config, e: Event): Option<Request> {
    match e
    case Exec(_, subject, kind, runAs, selector, online) =>
      var hosts := Resolved(cfg.parse, selector, online);
      if kind == "" || hosts.Err? || hosts.value == [] then None
      else Some(Request(subject, kind, runAs, Canonical(hosts.value), 0, Deciding))
    case Shell(_, subject, runAs, spelling) =>
      var host := cfg.parse(spelling);
      if host.None? then None
      else Some(Request(subject, "shell", runAs, [Target(host.value, spelling)], 0, Deciding))
    case Advance(_, _) => None
  }

  /** The request is done with its current host. */
  function Done(q: Request): Request {
    q.(at := q.at + 1, phase := Deciding)
  }

  /** One action of one request on its current target: what it appends to the journal, and its next state. */
  ghost function Move(cfg: Config, r: nat, q: Request, c: Choice): (seq<Entry>, Request)
    requires q.at < |q.targets|
  {
    var t := q.targets[q.at];
    match q.phase
    case Deciding =>
      if c != Go then ([Told(r, t, Unavailable)], Done(q))
      else ([], q.(phase := Logging(Decide(cfg, q, t))))
    case Logging(d) =>
      if c == Fail then ([Told(r, t, Unavailable)], Done(q))
      else if c == FailAfter then ([Logged(LineFor(q, t, d)), Told(r, t, Unavailable)], Done(q))
      else ([Logged(LineFor(q, t, d))], q.(phase := Acting(d)))
    case Acting(Deny) => ([Told(r, t, Denied)], Done(q))
    case Acting(Allow) =>
      if c != Go then ([Told(r, t, BridgeDown)], Done(q))
      else ([Commanded(r, t, q.kind, q.runAs)], Done(q))
  }

  ghost function Step(cfg: Config, s: State, e: Event): State {
    if e.Advance? then
      if e.r !in s.requests || s.requests[e.r].at >= |s.requests[e.r].targets| then s
      else
        var (entries, q) := Move(cfg, e.r, s.requests[e.r], e.c);
        State(s.requests[e.r := q], s.journal + entries)
    else
      var q := Admitted(cfg, e);
      if e.r in s.requests || q.None? then s else s.(requests := s.requests[e.r := q.value])
  }

  ghost function Run(cfg: Config, events: seq<Event>): State {
    if events == [] then State(map[], [])
    else Step(cfg, Run(cfg, events[..|events| - 1]), events[|events| - 1])
  }

  // --- No effect without authorization and audit ---

  ghost predicate LoggedBefore(journal: seq<Entry>, p: nat, line: Line)
    requires p <= |journal|
  {
    exists i | 0 <= i < p :: journal[i] == Logged(line)
  }

  /** An entry that acts on a decision: a command on Allow, a refusal on Deny. */
  predicate Decided(x: Entry) {
    x.Commanded? || (x.Told? && x.reason == Denied)
  }

  /**
    The command or refusal at `p` follows an audit entry of that decision for the same
    subject, kind, host and user, and the bindings grant it or do not.
   */
  ghost predicate Backed(cfg: Config, s: State, p: nat)
    requires p < |s.journal| && Decided(s.journal[p])
  {
    var x := s.journal[p];
    && x.r in s.requests && cfg.parse(x.target.text) == Some(x.target.host)
    && var q := s.requests[x.r];
       && x.target in q.targets && (x.Commanded? ==> q.kind == x.kind && q.runAs == x.runAs)
       && LoggedBefore(s.journal, p, LineFor(q, x.target, if x.Commanded? then Allow else Deny))
       && (x.Commanded? <==> Granted(cfg.bindings, q.subject, q.kind, x.target.host, q.runAs))
  }

  /** Each target's text names its host, and no host is named twice. */
  ghost predicate Proper(cfg: Config, targets: seq<Target>) {
    && (forall i | 0 <= i < |targets| :: cfg.parse(targets[i].text) == Some(targets[i].host))
    && (forall i, j | 0 <= i < j < |targets| :: targets[i].host != targets[j].host)
  }

  ghost predicate RequestInv(cfg: Config, s: State, q: Request) {
    && q.at <= |q.targets| && Proper(cfg, q.targets)
    && (q.at == |q.targets| ==> q.phase == Deciding)
    && (q.phase.Logging? || q.phase.Acting? ==>
          (q.phase.decision == Allow <==> Granted(cfg.bindings, q.subject, q.kind, q.targets[q.at].host, q.runAs)))
    && (q.phase.Acting? ==> LoggedBefore(s.journal, |s.journal|, LineFor(q, q.targets[q.at], q.phase.decision)))
  }

  lemma AdmittedProper(cfg: Config, e: Event)
    requires cfg.ParsesText() && Admitted(cfg, e).Some?
    ensures var q := Admitted(cfg, e).value;
      Proper(cfg, q.targets) && q.at == 0 < |q.targets| && q.phase == Deciding
  {
    hide Resolved, Text, Split;
    if e.Exec? {
      ResolvedNames(cfg.parse, e.selector, e.online);
    }
  }

  ghost predicate Inv(cfg: Config, s: State) {
    && (forall r | r in s.requests :: RequestInv(cfg, s, s.requests[r]))
    && (forall p | 0 <= p < |s.journal| && Decided(s.journal[p]) :: Backed(cfg, s, p))
  }

  lemma LoggedStays(journal: seq<Entry>, p: nat, line: Line, more: seq<Entry>)
    requires p <= |journal| && LoggedBefore(journal, p, line)
    ensures LoggedBefore(journal + more, p, line)
    ensures LoggedBefore(journal + more, |journal + more|, line)
  {
    var i :| 0 <= i < p && journal[i] == Logged(line);
    assert (journal + more)[i] == Logged(line);
  }

  lemma SubmitInv(cfg: Config, s: State, r: nat, q: Request)
    requires Inv(cfg, s) && r !in s.requests && q.phase == Deciding && q.at <= |q.targets| && Proper(cfg, q.targets)
    ensures Inv(cfg, s.(requests := s.requests[r := q]))
  {
    hide Granted;
    var s' := s.(requests := s.requests[r := q]);
    forall p | 0 <= p < |s'.journal| && Decided(s'.journal[p])
      ensures Backed(cfg, s', p)
    {
      assert Backed(cfg, s, p);
    }
    forall x | x in s'.requests
      ensures RequestInv(cfg, s', s'.requests[x])
    {
      if x != r {
        assert RequestInv(cfg, s, s.requests[x]);
      }
    }
  }

  /** The request's own promises after its action. */
  lemma OwnMove(cfg: Config, s: State, r: nat, c: Choice)
    requires cfg.ParsesText() && r in s.requests && RequestInv(cfg, s, s.requests[r])
             && s.requests[r].at < |s.requests[r].targets|
    ensures var (entries, q) := Move(cfg, r, s.requests[r], c);
      RequestInv(cfg, State(s.requests[r := q], s.journal + entries), q)
  {
    hide Granted, Text;
    var q0 := s.requests[r];
    var (entries, q) := Move(cfg, r, q0, c);
    if q.phase.Acting? {
      assert (s.journal + entries)[|s.journal|] == Logged(LineFor(q, q.targets[q.at], q.phase.decision));
    }
  }

  /** A command or refusal that is about to be appended is backed by what is already there. */
  ghost predicate OwnBacked(cfg: Config, s: State, r: nat, q: Request, x: Entry)
    requires Decided(x)
  {
    && x.r == r && x.target in q.targets && cfg.parse(x.target.text) == Some(x.target.host)
    && (x.Commanded? ==> x.kind == q.kind && x.runAs == q.runAs)
    && LoggedBefore(s.journal, |s.journal|, LineFor(q, x.target, if x.Commanded? then Allow else Deny))
    && (x.Commanded? <==> Granted(cfg.bindings, q.subject, q.kind, x.target.host, q.runAs))
  }

  lemma OwnLine(journal: seq<Entry>, entries: seq<Entry>, line: Line, p: nat)
    requires LoggedBefore(journal, |journal|, line) && |journal| <= p <= |journal + entries|
    ensures LoggedBefore(journal + entries, p, line)
  {
    var i :| 0 <= i < |journal| && journal[i] == Logged(line);
    assert (journal + entries)[i] == Logged(line);
  }

  /** A command it issues, and a refusal it tells, is backed. */
  lemma OwnCommand(cfg: Config, s: State, r: nat, c: Choice)
    requires r in s.requests && RequestInv(cfg, s, s.requests[r]) && s.requests[r].at < |s.requests[r].targets|
    ensures var (entries, q) := Move(cfg, r, s.requests[r], c);
      && q.subject == s.requests[r].subject && q.kind == s.requests[r].kind && q.runAs == s.requests[r].runAs
      && q.targets == s.requests[r].targets
      && forall i | 0 <= i < |entries| && Decided(entries[i]) :: OwnBacked(cfg, s, r, q, entries[i])
  {
    hide Granted, Text;
  }

  lemma AdvanceInv(cfg: Config, s: State, r: nat, c: Choice)
    requires cfg.ParsesText() && Inv(cfg, s) && r in s.requests && s.requests[r].at < |s.requests[r].targets|
    ensures Inv(cfg, Step(cfg, s, Advance(r, c)))
  {
    hide Granted, Text, Move;
    var (entries, q) := Move(cfg, r, s.requests[r], c);
    var s' := State(s.requests[r := q], s.journal + entries);
    OwnMove(cfg, s, r, c);
    OwnCommand(cfg, s, r, c);
    forall x | x in s'.requests
      ensures RequestInv(cfg, s', s'.requests[x])
    {
      if x != r {
        OtherRequest(cfg, s, s', s.requests[x], entries);
      }
    }
    forall p | 0 <= p < |s'.journal| && Decided(s'.journal[p])
      ensures Backed(cfg, s', p)
    {
      CommandBacked(cfg, s, s', r, q, entries, p);
    }
  }

  lemma OtherRequest(cfg: Config, s: State, s': State, q: Request, entries: seq<Entry>)
    requires RequestInv(cfg, s, q) && s'.journal == s.journal + entries
    ensures RequestInv(cfg, s', q)
  {
    hide Granted, Text;
    if q.phase.Acting? {
      LoggedStays(s.journal, |s.journal|, LineFor(q, q.targets[q.at], q.phase.decision), entries);
    }
  }

  lemma CommandBacked(cfg: Config, s: State, s': State, r: nat, q: Request, entries: seq<Entry>, p: nat)
    requires Inv(cfg, s) && r in s.requests && s' == State(s.requests[r := q], s.journal + entries)
    requires q.subject == s.requests[r].subject && q.kind == s.requests[r].kind && q.runAs == s.requests[r].runAs
    requires q.targets == s.requests[r].targets
    requires forall i | 0 <= i < |entries| && Decided(entries[i]) :: OwnBacked(cfg, s, r, q, entries[i])
    requires p < |s'.journal| && Decided(s'.journal[p])
    ensures Backed(cfg, s', p)
  {
    hide Granted, Text;
    if p < |s.journal| {
      assert s'.journal[p] == s.journal[p] && Backed(cfg, s, p);
      var x := s.journal[p];
      LoggedStays(s.journal, p, LineFor(s.requests[x.r], x.target, if x.Commanded? then Allow else Deny), entries);
    } else {
      var i := p - |s.journal|;
      assert s'.journal[p] == entries[i];
      OwnLine(s.journal, entries, LineFor(q, entries[i].target, if entries[i].Commanded? then Allow else Deny), p);
    }
  }

  lemma {:induction false} InvHolds(cfg: Config, events: seq<Event>)
    requires cfg.ParsesText()
    ensures Inv(cfg, Run(cfg, events))
  {
    hide Inv, Move, Admitted;
    if events == [] {
      EmptyInv(cfg);
    } else {
      var s, e := Run(cfg, events[..|events| - 1]), events[|events| - 1];
      InvHolds(cfg, events[..|events| - 1]);
      if e.Advance? {
        if e.r in s.requests && s.requests[e.r].at < |s.requests[e.r].targets| {
          AdvanceInv(cfg, s, e.r, e.c);
        }
      } else if e.r !in s.requests && Admitted(cfg, e).Some? {
        AdmittedProper(cfg, e);
        SubmitInv(cfg, s, e.r, Admitted(cfg, e).value);
      }
    }
  }

  lemma EmptyInv(cfg: Config)
    ensures Inv(cfg, State(map[], []))
  {
  }

  // --- What an operator asked for ---

  /** The kind a request is decided and recorded under. */
  function KindOf(e: Event): string
    requires !e.Advance?
  {
    if e.Exec? then e.kind else "shell"
  }

  /** The targets an event names: an exec's in canonical text, a shell's one in the operator's spelling. */
  ghost predicate Targets(cfg: Config, e: Event, targets: seq<Target>)
    requires !e.Advance?
  {
    if e.Exec? then
      && (forall h :: Among(h, targets) <==> Names(cfg.parse, e.selector, e.online, h))
      && (forall i | 0 <= i < |targets| :: targets[i].text == Text(targets[i].host))
    else |targets| == 1 && targets[0].text == e.spelling && cfg.parse(e.spelling) == Some(targets[0].host)
  }

  predicate Among(h: HostId, targets: seq<Target>) {
    exists i | 0 <= i < |targets| :: targets[i].host == h
  }

  /** The request is the operator's own: same number, subject, kind, user and targets. */
  ghost predicate AskedBy(cfg: Config, e: Event, r: nat, q: Request) {
    && !e.Advance? && e.r == r && q.subject == e.subject && q.kind == KindOf(e) && q.runAs == e.runAs
    && Targets(cfg, e, q.targets)
  }

  lemma AdmittedAsked(cfg: Config, e: Event)
    requires Admitted(cfg, e).Some?
    ensures !e.Advance? && AskedBy(cfg, e, e.r, Admitted(cfg, e).value)
  {
    hide Resolved, Text, Split, Names;
    if e.Exec? {
      forall h
        ensures Among(h, Admitted(cfg, e).value.targets) <==> Names(cfg.parse, e.selector, e.online, h)
      {
        WorksThroughNamed(cfg, e, h);
      }
    }
  }

  /** An action changes nothing of what was asked for. */
  lemma MoveKeepsAsked(cfg: Config, r: nat, q: Request, c: Choice)
    requires q.at < |q.targets|
    ensures var q' := Move(cfg, r, q, c).1;
      q'.subject == q.subject && q'.kind == q.kind && q'.runAs == q.runAs && q'.targets == q.targets
  {
    hide Decide;
  }

  /** Every request of every run is one an operator made. */
  lemma {:induction false} RequestsAreAsked(cfg: Config, events: seq<Event>, r: nat) returns (i: nat)
    requires r in Run(cfg, events).requests
    ensures i < |events| && AskedBy(cfg, events[i], r, Run(cfg, events).requests[r])
  {
    hide Move, Admitted, Targets;
    var before, e := events[..|events| - 1], events[|events| - 1];
    var s := Run(cfg, before);
    if r in s.requests {
      i := RequestsAreAsked(cfg, before, r);
      if e.Advance? && e.r == r && s.requests[r].at < |s.requests[r].targets| {
        MoveKeepsAsked(cfg, r, s.requests[r], e.c);
      }
    } else {
      i := |events| - 1;
      AdmittedAsked(cfg, e);
    }
  }

  /** An exec is taken up exactly if it has a kind and its selector resolves to some host. */
  lemma ExecIsTakenUp(cfg: Config, s: State, e: Event)
    requires e.Exec? && e.r !in s.requests
    ensures var s' := Step(cfg, s, e);
      && s'.journal == s.journal
      && (e.r in s'.requests <==>
            e.kind != "" && Resolved(cfg.parse, e.selector, e.online).Ok?
            && exists h :: Names(cfg.parse, e.selector, e.online, h))
      && (e.r in s'.requests ==>
            && AskedBy(cfg, e, e.r, s'.requests[e.r]) && s'.requests[e.r].at == 0
            && s'.requests[e.r].phase == Deciding)
  {
    hide Resolved, Text, Split, Names, AskedBy;
    ResolvedNames(cfg.parse, e.selector, e.online);
    var r := Resolved(cfg.parse, e.selector, e.online);
    if r.Ok? && r.value != [] {
      assert r.value[0] in r.value;
    }
    if Admitted(cfg, e).Some? {
      AdmittedAsked(cfg, e);
    }
  }

  /** A shell is taken up exactly if its spelling is a host id. */
  lemma ShellIsTakenUp(cfg: Config, s: State, e: Event)
    requires e.Shell? && e.r !in s.requests
    ensures var s' := Step(cfg, s, e);
      && s'.journal == s.journal && (e.r in s'.requests <==> cfg.parse(e.spelling).Some?)
      && (e.r in s'.requests ==>
            && AskedBy(cfg, e, e.r, s'.requests[e.r]) && s'.requests[e.r].at == 0
            && s'.requests[e.r].phase == Deciding)
  {
    hide Text;
  }

  /**
    In every interleaving of requests, every command to the bridge comes after an Allow
    entry in the audit log with the subject, kind and user of the operator's own request
    and a text that names its host, and some binding grants exactly that; every refusal
    comes after a Deny entry, and no binding grants it.  The host is one the request names.
   */
  lemma NoEffectWithoutAudit(cfg: Config, events: seq<Event>, p: nat) returns (i: nat)
    requires cfg.ParsesText() && p < |Run(cfg, events).journal| && Decided(Run(cfg, events).journal[p])
    ensures i < |events| && !events[i].Advance?
    ensures var x, e := Run(cfg, events).journal[p], events[i];
      && e.r == x.r && (x.Commanded? ==> x.kind == KindOf(e) && x.runAs == e.runAs)
      && cfg.parse(x.target.text) == Some(x.target.host)
      && (e.Exec? ==> Names(cfg.parse, e.selector, e.online, x.target.host) && x.target.text == Text(x.target.host))
      && (e.Shell? ==> x.target.text == e.spelling)
      && LoggedBefore(Run(cfg, events).journal, p,
                      Line(e.subject, KindOf(e), x.target.text, e.runAs, if x.Commanded? then Allow else Deny))
      && (x.Commanded? <==> Granted(cfg.bindings, e.subject, KindOf(e), x.target.host, e.runAs))
  {
    hide Run, Granted, Text, Names, Split;
    InvHolds(cfg, events);
    var s := Run(cfg, events);
    assert Backed(cfg, s, p);
    i := RequestsAreAsked(cfg, events, s.journal[p].r);
    assert Among(s.journal[p].target.host, s.requests[s.journal[p].r].targets);
  }

  // --- Each host exactly once ---

  /** How often a request commanded or told about a host. */
  function Answers(journal: seq<Entry>, r: nat, h: HostId): nat {
    if journal == [] then 0
    else
      var x := journal[|journal| - 1];
      Answers(journal[..|journal| - 1], r, h) + (if !x.Logged? && x.r == r && x.target.host == h then 1 else 0)
  }

  ghost predicate Answered(s: State, r: nat, h: HostId) {
    Answers(s.journal, r, h)
    == if r in s.requests && s.requests[r].at <= |s.requests[r].targets|
          && Among(h, s.requests[r].targets[..s.requests[r].at])
       then 1 else 0
  }

  lemma {:induction false} AnswersAppend(a: seq<Entry>, b: seq<Entry>, r: nat, h: HostId)
    ensures Answers(a + b, r, h) == Answers(a, r, h) + Answers(b, r, h)
    decreases |b|
  {
    if b == [] {
      assert a + b == a;
    } else {
      var n := |b| - 1;
      assert (a + b)[..|a + b| - 1] == a + b[..n];
      AnswersAppend(a, b[..n], r, h);
    }
  }

  /** An action answers its current host once if it is done with it, and no other. */
  lemma MoveAnswers(cfg: Config, r: nat, q: Request, c: Choice, x: nat, h: HostId)
    requires q.at < |q.targets|
    ensures var (entries, q') := Move(cfg, r, q, c);
      && q'.targets == q.targets && (q'.at == q.at || q'.at == q.at + 1)
      && Answers(entries, x, h) == if q'.at == q.at + 1 && x == r && h == q.targets[q.at].host then 1 else 0
  {
    var (entries, q') := Move(cfg, r, q, c);
    if |entries| == 2 {
      assert entries[..1] == [entries[0]];
      assert Answers([entries[0]], x, h) == 0;
    }
  }

  lemma {:induction false} EachHostOnce(cfg: Config, events: seq<Event>, r: nat, h: HostId)
    requires cfg.ParsesText()
    ensures Answered(Run(cfg, events), r, h)
  {
    hide Move, Inv, Admitted, Among;
    if events == [] {
    } else {
      var before, e := events[..|events| - 1], events[|events| - 1];
      var s := Run(cfg, before);
      EachHostOnce(cfg, before, r, h);
      if e.Advance? {
        if e.r in s.requests && s.requests[e.r].at < |s.requests[e.r].targets| {
          var q := s.requests[e.r];
          MoveAnswers(cfg, e.r, q, e.c, r, h);
          AnswersAppend(s.journal, Move(cfg, e.r, q, e.c).0, r, h);
          InvHolds(cfg, before);
          NextAmong(cfg, s, e.r, h);
        }
      } else if e.r !in s.requests && Admitted(cfg, e).Some? {
        AdmittedProper(cfg, e);
        NoneAmong(h, Admitted(cfg, e).value.targets);
      }
    }
  }

  lemma NoneAmong(h: HostId, targets: seq<Target>)
    ensures !Among(h, targets[..0])
  {
  }

  /** The next target's host is not one of those before it. */
  lemma NextAmong(cfg: Config, s: State, r: nat, h: HostId)
    requires Inv(cfg, s) && r in s.requests && s.requests[r].at < |s.requests[r].targets|
    ensures var q := s.requests[r];
      && !Among(q.targets[q.at].host, q.targets[..q.at])
      && (Among(h, q.targets[..q.at + 1]) <==> Among(h, q.targets[..q.at]) || h == q.targets[q.at].host)
  {
    assert RequestInv(cfg, s, s.requests[r]);
    var q := s.requests[r];
    var before, after := q.targets[..q.at], q.targets[..q.at + 1];
    assert after[..q.at] == before && after[q.at] == q.targets[q.at];
    assert forall i | 0 <= i < q.at :: before[i] == after[i];
  }

  /** When a request is over, each of its hosts got exactly one command or exactly one error. */
  lemma FinishedAnswersAll(cfg: Config, events: seq<Event>, r: nat, h: HostId)
    requires cfg.ParsesText() && r in Run(cfg, events).requests
    requires Run(cfg, events).requests[r].at == |Run(cfg, events).requests[r].targets|
    ensures Answers(Run(cfg, events).journal, r, h) == if Among(h, Run(cfg, events).requests[r].targets) then 1 else 0
  {
    hide Run, Answers;
    EachHostOnce(cfg, events, r, h);
    var q := Run(cfg, events).requests[r];
    assert q.targets[..q.at] == q.targets;
  }

  /** An exec works through exactly the hosts its selector names. */
  lemma WorksThroughNamed(cfg: Config, e: Event, h: HostId)
    requires e.Exec? && Admitted(cfg, e).Some?
    ensures Among(h, Admitted(cfg, e).value.targets) <==> Names(cfg.parse, e.selector, e.online, h)
  {
    hide Resolved, Text, Split, Names;
    ResolvedNames(cfg.parse, e.selector, e.online);
    var hosts, targets := Resolved(cfg.parse, e.selector, e.online).value, Admitted(cfg, e).value.targets;
    assert h in hosts <==> Names(cfg.parse, e.selector, e.online, h);
    if h in hosts {
      var i :| 0 <= i < |hosts| && hosts[i] == h;
      assert targets[i].host == h;
    }
  }

  /** Where nothing fails, a granted host is audited and then commanded, and any other audited and then refused. */
  lemma UndisturbedHost(cfg: Config, s: State, r: nat)
    requires r in s.requests && s.requests[r].at < |s.requests[r].targets| && s.requests[r].phase == Deciding
    requires Proper(cfg, s.requests[r].targets)
    ensures var q := s.requests[r];
      var t := q.targets[q.at];
      var s' := Step(cfg, Step(cfg, Step(cfg, s, Advance(r, Go)), Advance(r, Go)), Advance(r, Go));
      && s'.requests == s.requests[r := Done(q)]
      && s'.journal == s.journal
           + (if Granted(cfg.bindings, q.subject, q.kind, t.host, q.runAs)
              then [Logged(LineFor(q, t, Allow)), Commanded(r, t, q.kind, q.runAs)]
              else [Logged(LineFor(q, t, Deny)), Told(r, t, Denied)])
  {
    hide Granted, Text;
  }
}
