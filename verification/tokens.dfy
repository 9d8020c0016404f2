/**
  Single-use join tokens.  Both adapters work on a map of tokens through three atomic
  operations: sweep what is dead, insert a fresh token, and redeem.  In memory a mint is
  a sweep and an insert under one lock; in Postgres each is a statement of its own, so
  they interleave across replicas.
 */
module Tokens {
  import opened Wrappers
  import opened Collections

  type Token = string

  type Time = int

  datatype Entry = Entry(expires: Time, redeemed: bool)

  type Store = map<Token, Entry>

  function Sweep(s: Store, now: Time): Store {
    map t | t in s && !s[t].redeemed && now < s[t].expires :: s[t]
  }

  predicate Redeemable(s: Store, t: Token, now: Time) {
    t in s && !s[t].redeemed && now < s[t].expires
  }

  function Mark(s: Store, t: Token, now: Time): Store {
    if Redeemable(s, t, now) then s[t := s[t].(redeemed := true)] else s
  }

  /** A sweep drops exactly what is redeemed or expired, and changes nothing it keeps. */
  lemma SweepIs(s: Store, now: Time, t: Token)
    ensures t in Sweep(s, now) <==> t in s && !s[t].redeemed && now < s[t].expires
    ensures t in Sweep(s, now) ==> Sweep(s, now)[t] == s[t]
  {
  }

  datatype RedeemError = Unknown | AlreadyRedeemed | Expired

  datatype MintError = Full

  // --- The adapters ---

  class JoinTokenRegistry {
    const maxTtl: nat
    const cap: nat
    var tokens: Store

    /** The outstanding cap holds here, where the count and the insert share one lock. */
    ghost predicate Valid()
      reads this
    {
      |tokens| <= cap
    }

    constructor (maxTtl: nat, cap: nat)
      ensures Valid() && this.maxTtl == maxTtl && this.cap == cap && tokens == map[]
    {
      this.maxTtl, this.cap, tokens := maxTtl, cap, map[];
    }

    /** `now` and `later` are the two readings of the clock; `token` is the fresh random value. */
    method Mint(ttl: nat, now: Time, later: Time, token: Token) returns (r: Result<Time, MintError>)
      requires Valid() && token !in tokens
      modifies this`tokens
      ensures Valid()
      ensures r.Err? <==> |Sweep(old(tokens), later)| >= cap
      ensures r.Err? ==> tokens == Sweep(old(tokens), later)
      ensures r.Ok? ==> r.value == now + (if ttl < maxTtl then ttl else maxTtl)
      ensures r.Ok? ==> tokens == Sweep(old(tokens), later)[token := Entry(r.value, false)]
    {
      var clamped := if ttl < maxTtl then ttl else maxTtl;
      var expires := now + clamped;
      SweepSmaller(tokens, later);
      tokens := map t | t in tokens && !tokens[t].redeemed && later < tokens[t].expires :: tokens[t];
      if |tokens| >= cap {
        return Err(Full);
      }
      ghost var swept := tokens;
      tokens := tokens[token := Entry(expires, false)];
      assert tokens.Keys == swept.Keys + {token};
      assert |tokens.Keys| == |tokens| && |swept.Keys| == |swept|;
      r := Ok(expires);
    }

    /** Succeeds exactly for a token that is there, unredeemed and unexpired. */
    method Redeem(token: Token, now: Time) returns (r: Result<(), RedeemError>)
      requires Valid()
      modifies this`tokens
      ensures Valid()
      ensures r.Ok? <==> token in old(tokens) && !old(tokens)[token].redeemed && now < old(tokens)[token].expires
      ensures r.Ok? ==> tokens == old(tokens)[token := old(tokens)[token].(redeemed := true)]
      ensures r.Err? ==> tokens == old(tokens)
      ensures tokens == Mark(old(tokens), token, now) && (r.Ok? <==> Redeemable(old(tokens), token, now))
      ensures r == Err(Unknown) <==> token !in old(tokens)
      ensures r == Err(AlreadyRedeemed) <==> token in old(tokens) && old(tokens)[token].redeemed
    {
      if token !in tokens {
        return Err(Unknown);
      }
      if tokens[token].redeemed {
        return Err(AlreadyRedeemed);
      }
      if now >= tokens[token].expires {
        return Err(Expired);
      }
      ghost var was := tokens;
      tokens := tokens[token := tokens[token].(redeemed := true)];
      assert tokens.Keys == was.Keys;
      assert |tokens.Keys| == |tokens| && |was.Keys| == |was|;
      r := Ok(());
    }
  }

  /** A row of the shared table, keyed by the token's hash. */
  datatype Row = Row(expires: Time, redeemedAt: Option<Time>)

  ghost function StoreOf(rows: map<Token, Row>): Store {
    map t | t in rows :: Entry(rows[t].expires, rows[t].redeemedAt.Some?)
  }

  /** Each method is one SQL statement; between any two, other replicas' statements may run. */
  class PgJoinTokens {
    var rows: map<Token, Row>

    constructor ()
      ensures rows == map[]
    {
      rows := map[];
    }

    method DeleteDead(now: Time)
      modifies this
      ensures StoreOf(rows) == Sweep(StoreOf(old(rows)), now)
    {
      rows := map t | t in rows && !(rows[t].redeemedAt.Some? || rows[t].expires <= now) :: rows[t];
    }

    /** The primary key refuses a second row. */
    method InsertRow(t: Token, expires: Time) returns (ok: bool)
      modifies this
      ensures ok <==> t !in old(rows)
      ensures StoreOf(rows) == if ok then StoreOf(old(rows))[t := Entry(expires, false)] else StoreOf(old(rows))
    {
      ok := t !in rows;
      if ok {
        rows := rows[t := Row(expires, None)];
      }
    }

    method Redeem(t: Token, now: Time) returns (affected: nat)
      modifies this
      ensures affected == if Redeemable(StoreOf(old(rows)), t, now) then 1 else 0
      ensures StoreOf(rows) == Mark(StoreOf(old(rows)), t, now)
    {
      affected := 0;
      if t in rows && rows[t].redeemedAt.None? && rows[t].expires > now {
        rows := rows[t := rows[t].(redeemedAt := Some(now))];
        affected := 1;
      }
    }
  }

  lemma SweepSmaller(s: Store, now: Time)
    ensures |Sweep(s, now)| <= |s|
  {
    assert Sweep(s, now).Keys <= s.Keys;
    SubsetSize(Sweep(s, now).Keys, s.Keys);
    assert |Sweep(s, now).Keys| == |Sweep(s, now)| && |s.Keys| == |s|;
  }

  lemma SubsetSize(a: set<Token>, b: set<Token>)
    requires a <= b
    ensures |a| <= |b|
  {
    assert b == a + (b - a);
  }

  // --- Runs ---

  /** What happened to the store, in the order the lock or the database put it. */
  datatype Event = Swept(now: Time) | Inserted(t: Token, expires: Time) | Tried(t: Token, now: Time)

  /** The store, and the tokens of the redemptions that succeeded. */
  datatype State = State(store: Store, wins: seq<Token>)

  function Step(s: State, e: Event): State {
    match e
    case Swept(now) => s.(store := Sweep(s.store, now))
    case Inserted(t, expires) => if t in s.store then s else s.(store := s.store[t := Entry(expires, false)])
    case Tried(t, now) => State(Mark(s.store, t, now), if Redeemable(s.store, t, now) then s.wins + [t] else s.wins)
  }

  function Run(events: seq<Event>): State {
    if events == [] then State(map[], []) else Step(Run(events[..|events| - 1]), events[|events| - 1])
  }

  /** The tokens that were minted, in order. */
  function Minted(events: seq<Event>): seq<Token> {
    if events == [] then []
    else
      var e := events[|events| - 1];
      Minted(events[..|events| - 1]) + (if e.Inserted? then [e.t] else [])
  }

  ghost predicate OnceInv(s: State, minted: seq<Token>) {
    && NoRepeats(s.wins)
    && (forall t | t in s.store :: t in minted)
    && (forall t | t in s.wins :: t in minted && (t in s.store ==> s.store[t].redeemed))
  }

  lemma MintedLast(events: seq<Event>)
    requires events != [] && NoRepeats(Minted(events))
    ensures NoRepeats(Minted(events[..|events| - 1]))
    ensures events[|events| - 1].Inserted? ==> events[|events| - 1].t !in Minted(events[..|events| - 1])
    ensures forall t | t in Minted(events[..|events| - 1]) :: t in Minted(events)
  {
    var before, e := Minted(events[..|events| - 1]), events[|events| - 1];
    NoRepeatsSplit(before, if e.Inserted? then [e.t] else []);
  }

  /**
    However mints, sweeps and redemptions interleave, and whatever each of them reads off
    its clock, a freshly minted token is redeemed successfully at most once.
   */
  lemma {:induction false} RedeemedAtMostOnce(events: seq<Event>)
    requires NoRepeats(Minted(events))
    ensures NoRepeats(Run(events).wins)
    ensures OnceInv(Run(events), Minted(events))
  {
    if events != [] {
      var before := events[..|events| - 1];
      MintedLast(events);
      RedeemedAtMostOnce(before);
      OnceStep(Run(before), Minted(before), events[|events| - 1], Minted(events));
    }
  }

  lemma OnceStep(s: State, minted: seq<Token>, e: Event, minted': seq<Token>)
    requires OnceInv(s, minted) && (forall t | t in minted :: t in minted')
    requires e.Inserted? ==> e.t !in minted && e.t in minted'
    ensures OnceInv(Step(s, e), minted')
  {
  }

  // --- One clock ---

  /** The same history without any sweep. */
  function Ledger(events: seq<Event>): Store {
    if events == [] then map[]
    else
      var s, e := Ledger(events[..|events| - 1]), events[|events| - 1];
      match e
      case Swept(_) => s
      case Inserted(t, expires) => s[t := Entry(expires, false)]
      case Tried(t, now) => Mark(s, t, now)
  }

  /** Readings never go back, and none is later than `clock`. */
  ghost predicate Clocked(events: seq<Event>, clock: Time) {
    if events == [] then true
    else
      var e := events[|events| - 1];
      match e
      case Inserted(_, _) => Clocked(events[..|events| - 1], clock)
      case Swept(now) => now <= clock && Clocked(events[..|events| - 1], now)
      case Tried(_, now) => now <= clock && Clocked(events[..|events| - 1], now)
  }

  /** What the store has lost is dead. */
  ghost predicate Mirrors(store: Store, ledger: Store, clock: Time) {
    && (forall t | t in store :: t in ledger && store[t] == ledger[t])
    && (forall t | t in ledger && t !in store :: ledger[t].redeemed || ledger[t].expires <= clock)
  }

  lemma {:induction false} StoreMirrors(events: seq<Event>, clock: Time)
    requires NoRepeats(Minted(events)) && Clocked(events, clock)
    ensures Mirrors(Run(events).store, Ledger(events), clock)
  {
    if events != [] {
      var before, e := events[..|events| - 1], events[|events| - 1];
      MintedLast(events);
      RedeemedAtMostOnce(before);
      match e
      case Inserted(t, expires) =>
        StoreMirrors(before, clock);
      case Swept(now) =>
        StoreMirrors(before, now);
      case Tried(t, now) =>
        StoreMirrors(before, now);
    }
  }

  /**
    With one clock no sweep matters: a redemption succeeds exactly if the token was
    minted, not redeemed before, and has not expired.
   */
  lemma VerdictIsLedger(events: seq<Event>, t: Token, now: Time)
    requires NoRepeats(Minted(events)) && Clocked(events, now)
    ensures Redeemable(Run(events).store, t, now) <==> Redeemable(Ledger(events), t, now)
  {
    StoreMirrors(events, now);
  }

  /** So two adapters that saw the same mints and redemptions agree, however they swept. */
  lemma AdaptersAgree(a: seq<Event>, b: seq<Event>, t: Token, now: Time)
    requires NoRepeats(Minted(a)) && Clocked(a, now) && NoRepeats(Minted(b)) && Clocked(b, now)
    requires Unswept(a) == Unswept(b)
    ensures Redeemable(Run(a).store, t, now) <==> Redeemable(Run(b).store, t, now)
  {
    LedgerUnswept(a);
    LedgerUnswept(b);
    VerdictIsLedger(a, t, now);
    VerdictIsLedger(b, t, now);
  }

  function Unswept(events: seq<Event>): seq<Event> {
    if events == [] then []
    else
      var e := events[|events| - 1];
      Unswept(events[..|events| - 1]) + (if e.Swept? then [] else [e])
  }

  lemma {:induction false} LedgerUnswept(events: seq<Event>)
    ensures Ledger(Unswept(events)) == Ledger(events)
  {
    if events != [] {
      var before, e := events[..|events| - 1], events[|events| - 1];
      LedgerUnswept(before);
      if !e.Swept? {
        var u := Unswept(events);
        assert u[..|u| - 1] == Unswept(before) && u[|u| - 1] == e;
      } else {
        assert Unswept(events) == Unswept(before);
      }
    }
  }

  /**
    The clocks are not quite one: memory compares instants, Postgres whole seconds.  For a
    token minted at `minted` for `ttl` and redeemed at `t`, all in milliseconds, Postgres
    is never more generous, and the two verdicts differ exactly between the whole seconds
    it counts and the instant the token expires.
   */
  lemma SubSecond(token: Token, minted: nat, ttl: nat, t: nat)
    ensures var memory := map[token := Entry(minted + ttl, false)];
      var rows := map[token := Entry(minted / 1000 + ttl / 1000, false)];
      && (Redeemable(rows, token, t / 1000) ==> Redeemable(memory, token, t))
      && (Redeemable(memory, token, t) != Redeemable(rows, token, t / 1000)
          <==> 1000 * (minted / 1000 + ttl / 1000) <= t < minted + ttl)
  {
    assert t == 1000 * (t / 1000) + t % 1000 && minted == 1000 * (minted / 1000) + minted % 1000;
    assert ttl == 1000 * (ttl / 1000) + ttl % 1000;
  }

  /** Minted at 1.999 s for one second and redeemed at 2.5 s: memory redeems it, Postgres does not. */
  method LastFraction(token: Token) returns (memory: Result<(), RedeemError>, affected: nat)
    ensures memory.Ok? && affected == 0
  {
    var registry := new JoinTokenRegistry(60_000, 1);
    assert Sweep(registry.tokens, 1999) == map[] && |Sweep(registry.tokens, 1999)| == 0;
    var expires := registry.Mint(1000, 1999, 1999, token);
    memory := registry.Redeem(token, 2500);
    var table := new PgJoinTokens();
    var inserted := table.InsertRow(token, 1999 / 1000 + 1000 / 1000);
    affected := table.Redeem(token, 2500 / 1000);
  }
}
