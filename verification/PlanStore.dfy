/** The plan store and the commands that share it: every interleaving of their
    steps, and the locked operations on the state object that perform those steps
    (state.rs, commands/transactions.rs). */
module PlanStore {
  import opened Common

  const TX_PLAN_TTL: int := 300
  const PLAN_STORE_TTL: int := 600

  type PlanId = string

  /** The part of a transaction plan the protocol looks at; `content` stands for
      the unsigned transaction and its inputs and outputs. */
  datatype Plan = Plan(content: seq<byte>, walletPath: string, createdAt: int, expiresAt: int, signed: bool)

  datatype PendingPlan = PendingPlan(plan: Plan, createdAt: int)

  type Store = map<PlanId, PendingPlan>

  datatype CommandError = PlanNotFound | WalletMismatch | PlanExpired | AlreadySigned | TotpFailed

  /** `create_plan`. */
  function CreatePlan(content: seq<byte>, walletPath: string, now: int): Plan
  {
    Plan(content, walletPath, now, now + TX_PLAN_TTL, false)
  }

  /** What `retain` keeps. */
  function Purge(plans: Store, now: int): (r: Store)
    ensures forall id :: id in r <==> id in plans && now - plans[id].createdAt < PLAN_STORE_TTL
    ensures forall id :: id in r ==> r[id] == plans[id]
  {
    map id | id in plans && now - plans[id].createdAt < PLAN_STORE_TTL :: plans[id]
  }

  /** The checks between taking a plan and asking for the one-time code. */
  function Check(plan: Plan, walletPath: string, now: int): Option<CommandError>
  {
    if plan.walletPath != walletPath then Some(WalletMismatch)
    else if now > plan.expiresAt then Some(PlanExpired)
    else if plan.signed then Some(AlreadySigned)
    else None
  }

  // ----- interleaved commands ---------------------------------------------

  /** How far one running command has got. */
  datatype Session =
    | Preparing(wallet: string)
    | Built(plan: Plan)
    | Stamped(plan: Plan, id: PlanId, now: int)
    | Signing(wallet: string, id: PlanId)
    | Holding(wallet: string, id: PlanId, plan: Plan)
    | Cleared(wallet: string, id: PlanId, plan: Plan, clearedAt: int)
    | Done

  datatype Signature = Signature(id: PlanId, plan: Plan, wallet: string, clearedAt: int, signedAt: int)

  /** The shared state, the running commands, the signatures made so far, and
      which plan each id was issued for. */
  datatype World = World(now: int, wallet: Option<string>, store: Store, sessions: map<nat, Session>,
                         signatures: seq<Signature>, issued: map<PlanId, Plan>)

  /** One atomic step: the clock, a wallet switch, or the next step of session `s`.
      Steps of different sessions interleave freely; a session may also fail at any point. */
  datatype Action =
    | Tick(to: int)
    | Switch(wallet: Option<string>)
    | BeginPrepare(s: nat)
    | Build(s: nat, content: seq<byte>)
    | Stamp(s: nat, id: PlanId)
    | Insert(s: nat)
    | BeginSign(s: nat, id: PlanId)
    | Fetch(s: nat)
    | Clear(s: nat)
    | Emit(s: nat)
    | Fail(s: nat)

  const START := World(0, None, map[], map[], [], map[])

  function At(w: World, s: nat): Session
  {
    if s in w.sessions then w.sessions[s] else Done
  }

  /** When a step is possible. New plan ids are fresh, and the clock never runs back. */
  predicate Enabled(w: World, a: Action)
  {
    match a
    case Tick(to) => w.now <= to
    case Switch(_) => true
    case BeginPrepare(s) => At(w, s).Done? && w.wallet.Some?
    case Build(s, _) => At(w, s).Preparing?
    case Stamp(s, id) => At(w, s).Built? && id !in w.issued
    case Insert(s) => At(w, s).Stamped?
    case BeginSign(s, _) => At(w, s).Done? && w.wallet.Some?
    case Fetch(s) => At(w, s).Signing?
    case Clear(s) => At(w, s).Holding?
    case Emit(s) => At(w, s).Cleared?
    case Fail(s) => !At(w, s).Done?
  }

  function Move(w: World, s: nat, next: Session): World
  {
    w.(sessions := w.sessions[s := next])
  }

  function Perform(w: World, a: Action): World
    requires Enabled(w, a)
  {
    match a
    case Tick(to) => w.(now := to)
    case Switch(to) => w.(wallet := to)
    case BeginPrepare(s) => Move(w, s, Preparing(w.wallet.value))
    case Build(s, content) => Move(w, s, Built(CreatePlan(content, At(w, s).wallet, w.now)))
    case Stamp(s, id) =>
      var plan := At(w, s).plan;
      Move(w.(issued := w.issued[id := plan]), s, Stamped(plan, id, w.now))
    case Insert(s) =>
      var c := At(w, s);
      Move(w.(store := Purge(w.store, c.now)[c.id := PendingPlan(c.plan, c.now)]), s, Done)
    case BeginSign(s, id) => Move(w, s, Signing(w.wallet.value, id))
    case Fetch(s) =>
      var c := At(w, s);
      var kept := Purge(w.store, w.now);
      Move(w.(store := kept - {c.id}), s, if c.id in kept then Holding(c.wallet, c.id, kept[c.id].plan) else Done)
    case Clear(s) =>
      var c := At(w, s);
      Move(w, s, if Check(c.plan, c.wallet, w.now).None? then Cleared(c.wallet, c.id, c.plan, w.now) else Done)
    case Emit(s) =>
      var c := At(w, s);
      Move(w.(signatures := w.signatures + [Signature(c.id, c.plan, c.wallet, c.clearedAt, w.now)]), s, Done)
    case Fail(s) => Move(w, s, Done)
  }

  /** The world after a run; steps that are not possible do nothing. */
  function Run(w: World, actions: seq<Action>): World
    decreases |actions|
  {
    if actions == [] then w
    else Run(if Enabled(w, actions[0]) then Perform(w, actions[0]) else w, actions[1..])
  }

  lemma RunStep(w: World, a: Action, rest: seq<Action>)
    requires Enabled(w, a)
    ensures Run(w, [a] + rest) == Run(Perform(w, a), rest)
  {
    assert ([a] + rest)[1..] == rest;
  }

  lemma {:induction false} RunConcat(w: World, a: seq<Action>, b: seq<Action>)
    ensures Run(w, a + b) == Run(Run(w, a), b)
    decreases |a|
  {
    if a == [] {
      assert a + b == b;
    } else {
      assert (a + b)[1..] == a[1..] + b;
      RunConcat(if Enabled(w, a[0]) then Perform(w, a[0]) else w, a[1..], b);
    }
  }

  /** One step more at the end. */
  lemma RunOneMore(w: World, actions: seq<Action>)
    requires actions != []
    ensures var before := Run(w, actions[..|actions| - 1]);
            var last := actions[|actions| - 1];
            Run(w, actions) == if Enabled(before, last) then Perform(before, last) else before
  {
    var front, last := actions[..|actions| - 1], actions[|actions| - 1];
    assert actions == front + [last];
    RunConcat(w, front, [last]);
    assert [last][1..] == [];
  }

  // ----- the locked operations --------------------------------------------

  /** What a signing command does when nothing comes between its steps but the
      clock: it takes the plan, checks it, and signs if the one-time code is valid. */
  function Uninterrupted(s: nat, checkedAt: int, totpValid: bool): seq<Action>
  {
    [Fetch(s), Tick(checkedAt), Clear(s), if totpValid then Emit(s) else Fail(s)]
  }

  /** A world in which session `s` stands before that command, over a given store. */
  predicate AboutToSign(w: World, s: nat, store: Store, wallet: string, id: PlanId, now: int)
  {
    w.store == store && w.now == now && At(w, s) == Signing(wallet, id)
  }

  /** The steps of the command, put together. */
  lemma UninterruptedSigns(w: World, s: nat, wallet: string, id: PlanId, checkedAt: int, totpValid: bool)
    requires AboutToSign(w, s, w.store, wallet, id, w.now) && w.now <= checkedAt
    ensures var after := Run(w, Uninterrupted(s, checkedAt, totpValid));
            var kept := Purge(w.store, w.now);
            && after.store == kept - {id}
            && after.signatures == w.signatures +
                 if id in kept && totpValid && Check(kept[id].plan, wallet, checkedAt).None?
                 then [Signature(id, kept[id].plan, wallet, checkedAt, checkedAt)] else []
  {
    var w1 := Perform(w, Fetch(s));
    var w2 := Perform(w1, Tick(checkedAt));
    var last := if totpValid then Emit(s) else Fail(s);
    RunStep(w, Fetch(s), [Tick(checkedAt), Clear(s), last]);
    RunStep(w1, Tick(checkedAt), [Clear(s), last]);
    assert [Fetch(s)] + [Tick(checkedAt), Clear(s), last] == Uninterrupted(s, checkedAt, totpValid);
    assert [Tick(checkedAt)] + [Clear(s), last] == [Tick(checkedAt), Clear(s), last];
    ClearThenEmit(w2, s, last);
  }

  lemma ClearThenEmit(w: World, s: nat, last: Action)
    requires (At(w, s).Holding? || At(w, s).Done?) && last in {Emit(s), Fail(s)}
    ensures var after := Run(w, [Clear(s), last]);
            var c := At(w, s);
            && after.store == w.store
            && after.signatures == w.signatures +
                 if c.Holding? && last.Emit? && Check(c.plan, c.wallet, w.now).None?
                 then [Signature(c.id, c.plan, c.wallet, w.now, w.now)] else []
  {
    var w1 := if At(w, s).Holding? then Perform(w, Clear(s)) else w;
    assert [Clear(s), last][1..] == [last];
    assert Run(w, [Clear(s), last]) == Run(w1, [last]);
    var w2 := if Enabled(w1, last) then Perform(w1, last) else w1;
    assert [last][1..] == [];
    assert Run(w1, [last]) == Run(w2, []) == w2;
  }

  class AppState {
    var pendingPlans: Store
    var activeWallet: Option<string>

    constructor ()
      ensures pendingPlans == START.store && activeWallet == START.wallet
    {
      pendingPlans, activeWallet := map[], None;
    }

    /** The locked part of `prepare_tx`: in every world over this store, the
        `Insert` step of a session that has stamped the plan. */
    method StorePlan(id: PlanId, plan: Plan, now: int)
      modifies this`pendingPlans
      ensures forall w: World, s: nat :: w.store == old(pendingPlans) && At(w, s) == Stamped(plan, id, now) ==>
                pendingPlans == Perform(w, Insert(s)).store
      ensures forall later :: now <= later ==>
                (id in Purge(pendingPlans, later) <==> later - now < 600)
      ensures pendingPlans == Purge(old(pendingPlans), now)[id := PendingPlan(plan, now)]
    {
      pendingPlans := Purge(pendingPlans, now);
      pendingPlans := pendingPlans[id := PendingPlan(plan, now)];
    }

    /** The locked part of `sign_tx` and `sign_multisig_tx`: in every world over
        this store, the `Fetch` step of a session that signs this id. The plan
        leaves the store before anything about it is checked. */
    method TakePlan(id: PlanId, now: int) returns (r: Result<Plan, CommandError>)
      modifies this`pendingPlans
      ensures forall w: World, s: nat, wallet ::
                AboutToSign(w, s, old(pendingPlans), wallet, id, now) ==>
                  && pendingPlans == Perform(w, Fetch(s)).store
                  && At(Perform(w, Fetch(s)), s) == if r.Ok? then Holding(wallet, id, r.value) else Done
      ensures pendingPlans == Purge(old(pendingPlans), now) - {id}
      ensures r == if id in Purge(old(pendingPlans), now) then Ok(old(pendingPlans)[id].plan) else Err(PlanNotFound)
    {
      pendingPlans := Purge(pendingPlans, now);
      if id in pendingPlans {
        r := Ok(pendingPlans[id].plan);
        pendingPlans := pendingPlans - {id};
      } else {
        r := Err(PlanNotFound);
        assert pendingPlans - {id} == pendingPlans;
      }
    }

    /** A signing command run without interruption: it returns the plan it signs.
        The clock is read once under the lock and once for the expiry check. In
        every world over this store the steps of the command leave the same store
        and append the signature of exactly this plan, or none when it is refused. */
    method Sign(id: PlanId, walletPath: string, takenAt: int, checkedAt: int, totpValid: bool)
      returns (r: Result<Plan, CommandError>)
      requires takenAt <= checkedAt
      modifies this`pendingPlans
      ensures forall w: World, s: nat :: AboutToSign(w, s, old(pendingPlans), walletPath, id, takenAt) ==>
                var after := Run(w, Uninterrupted(s, checkedAt, totpValid));
                && after.store == pendingPlans
                && after.signatures ==
                   w.signatures + if r.Ok? then [Signature(id, r.value, walletPath, checkedAt, checkedAt)] else []
      ensures if id !in old(pendingPlans) || takenAt - old(pendingPlans)[id].createdAt >= 600 then r == Err(PlanNotFound)
              else
                var plan := old(pendingPlans)[id].plan;
                if plan.walletPath != walletPath then r == Err(WalletMismatch)
                else if checkedAt > plan.expiresAt then r == Err(PlanExpired)
                else if plan.signed then r == Err(AlreadySigned)
                else if !totpValid then r == Err(TotpFailed)
                else r == Ok(plan)
    {
      r := TakePlan(id, takenAt);
      if r.Ok? {
        var refusal := Check(r.value, walletPath, checkedAt);
        if refusal.Some? {
          r := Err(refusal.value);
        } else if !totpValid {
          r := Err(TotpFailed);
        }
      }
      forall w: World, s: nat | AboutToSign(w, s, old(pendingPlans), walletPath, id, takenAt)
        ensures Run(w, Uninterrupted(s, checkedAt, totpValid)).store == pendingPlans
        ensures Run(w, Uninterrupted(s, checkedAt, totpValid)).signatures ==
                w.signatures + if r.Ok? then [Signature(id, r.value, walletPath, checkedAt, checkedAt)] else []
      {
        UninterruptedSigns(w, s, walletPath, id, checkedAt, totpValid);
      }
    }
  }

  // ----- the invariant ----------------------------------------------------

  /** Where a plan id can be: waiting in the store, in the hands of one command,
      or in a signature. */
  datatype Place = InStore | InSession(s: nat) | InSignature(k: nat)

  function HeldBy(c: Session): Option<PlanId>
  {
    match c
    case Stamped(_, id, _) => Some(id)
    case Holding(_, id, _) => Some(id)
    case Cleared(_, id, _, _) => Some(id)
    case _ => None
  }

  predicate IsAt(w: World, p: Place, id: PlanId)
  {
    match p
    case InStore => id in w.store
    case InSession(s) => HeldBy(At(w, s)) == Some(id)
    case InSignature(k) => k < |w.signatures| && w.signatures[k].id == id
  }

  /** No plan id is in two places at once. */
  ghost predicate Exclusive(w: World)
  {
    forall id, p, q :: IsAt(w, p, id) && IsAt(w, q, id) ==> p == q
  }

  /** A plan as it was issued. */
  predicate Genuine(w: World, id: PlanId, plan: Plan, latest: int)
  {
    && id in w.issued && w.issued[id] == plan
    && FreshPlan(plan, latest)
  }

  predicate FreshPlan(plan: Plan, latest: int)
  {
    !plan.signed && plan.expiresAt == plan.createdAt + TX_PLAN_TTL && plan.createdAt <= latest
  }

  predicate SessionOk(w: World, c: Session)
  {
    match c
    case Built(plan) => FreshPlan(plan, w.now)
    case Stamped(plan, id, now) => Genuine(w, id, plan, now) && now <= w.now
    case Holding(_, id, plan) => Genuine(w, id, plan, w.now)
    case Cleared(wallet, id, plan, clearedAt) =>
      && Genuine(w, id, plan, w.now) && plan.walletPath == wallet
      && clearedAt <= plan.expiresAt && clearedAt <= w.now
    case _ => true
  }

  predicate StoredOk(w: World, id: PlanId)
    requires id in w.store
  {
    Genuine(w, id, w.store[id].plan, w.store[id].createdAt) && w.store[id].createdAt <= w.now
  }

  predicate SignatureOk(w: World, g: Signature)
  {
    && Genuine(w, g.id, g.plan, w.now) && g.plan.walletPath == g.wallet
    && g.clearedAt <= g.plan.expiresAt && g.clearedAt <= g.signedAt <= w.now
  }

  ghost predicate Contents(w: World)
  {
    && (forall id :: id in w.store ==> StoredOk(w, id))
    && (forall s: nat :: SessionOk(w, At(w, s)))
    && (forall k :: 0 <= k < |w.signatures| ==> SignatureOk(w, w.signatures[k]))
  }

  ghost predicate Inv(w: World)
  {
    Contents(w) && Exclusive(w)
  }

  lemma StepKeepsStore(w: World, a: Action, id: PlanId)
    requires Contents(w) && Enabled(w, a) && id in Perform(w, a).store
    ensures StoredOk(Perform(w, a), id)
  {
    if a.Insert? {
      assert SessionOk(w, At(w, a.s));
    }
    if id in w.store {
      assert StoredOk(w, id);
    }
  }

  /** A session that does not act is the same session, later. */
  lemma OtherSessionStays(w: World, a: Action, s: nat)
    requires Enabled(w, a) && SessionOk(w, At(w, s))
    requires a.Tick? || a.Switch? || a.s != s
    ensures SessionOk(Perform(w, a), At(Perform(w, a), s))
  {
    assert At(Perform(w, a), s) == At(w, s);
  }

  lemma StampKeepsSession(w: World, a: Action)
    requires Enabled(w, a) && a.Stamp? && SessionOk(w, At(w, a.s))
    ensures SessionOk(Perform(w, a), At(Perform(w, a), a.s))
  {
  }

  lemma FetchKeepsSession(w: World, a: Action)
    requires Contents(w) && Enabled(w, a) && a.Fetch?
    ensures SessionOk(Perform(w, a), At(Perform(w, a), a.s))
  {
    if At(w, a.s).id in w.store {
      assert StoredOk(w, At(w, a.s).id);
    }
  }

  lemma ClearKeepsSession(w: World, a: Action)
    requires Enabled(w, a) && a.Clear? && SessionOk(w, At(w, a.s))
    ensures SessionOk(Perform(w, a), At(Perform(w, a), a.s))
  {
  }

  lemma StepKeepsSession(w: World, a: Action, s: nat)
    requires Contents(w) && Enabled(w, a)
    ensures SessionOk(Perform(w, a), At(Perform(w, a), s))
  {
    assert SessionOk(w, At(w, s));
    if a.Tick? || a.Switch? || a.s != s {
      OtherSessionStays(w, a, s);
    } else {
      match a {
        case Stamp(_, _) => StampKeepsSession(w, a);
        case Fetch(_) => FetchKeepsSession(w, a);
        case Clear(_) => ClearKeepsSession(w, a);
        case _ =>
      }
    }
  }

  lemma StepKeepsSignature(w: World, a: Action, k: nat)
    requires Contents(w) && Enabled(w, a) && k < |Perform(w, a).signatures|
    ensures SignatureOk(Perform(w, a), Perform(w, a).signatures[k])
  {
    if a.Emit? {
      assert SessionOk(w, At(w, a.s));
    }
    if k < |w.signatures| {
      assert SignatureOk(w, w.signatures[k]);
    }
  }

  /** Every step keeps what is known about plans, sessions and signatures. */
  lemma StepKeepsContents(w: World, a: Action)
    requires Contents(w) && Enabled(w, a)
    ensures Contents(Perform(w, a))
  {
    var w' := Perform(w, a);
    forall id | id in w'.store
      ensures StoredOk(w', id)
    {
      StepKeepsStore(w, a, id);
    }
    forall s: nat
      ensures SessionOk(w', At(w', s))
    {
      StepKeepsSession(w, a, s);
    }
    forall k | 0 <= k < |w'.signatures|
      ensures SignatureOk(w', w'.signatures[k])
    {
      StepKeepsSignature(w, a, k);
    }
  }

  lemma PlacedIsIssued(w: World, p: Place, id: PlanId)
    requires Contents(w) && IsAt(w, p, id)
    ensures id in w.issued
  {
    match p {
      case InStore => assert StoredOk(w, id);
      case InSession(s) => assert SessionOk(w, At(w, s));
      case InSignature(k) => assert SignatureOk(w, w.signatures[k]);
    }
  }

  /** Where an id found after a step was before it, unless the step issued it. */
  function Before(w: World, a: Action, p: Place, id: PlanId): Place
    requires Enabled(w, a)
  {
    if a.Insert? && p == InStore && id == At(w, a.s).id then InSession(a.s)
    else if a.Fetch? && p == InSession(a.s) then InStore
    else if a.Emit? && p == InSignature(|w.signatures|) then InSession(a.s)
    else p
  }

  /** A step moves an id from one place to another and never copies it. */
  lemma StepMoves(w: World, a: Action, p: Place, id: PlanId)
    requires Enabled(w, a) && IsAt(Perform(w, a), p, id)
    ensures IsAt(w, Before(w, a, p, id), id) || (a.Stamp? && id == a.id && p == InSession(a.s))
  {
  }

  lemma BeforeIsInjective(w: World, a: Action, p: Place, q: Place, id: PlanId)
    requires Enabled(w, a) && IsAt(Perform(w, a), p, id) && IsAt(Perform(w, a), q, id)
    requires Before(w, a, p, id) == Before(w, a, q, id)
    ensures p == q
  {
  }

  lemma StepKeepsExclusive(w: World, a: Action)
    requires Inv(w) && Enabled(w, a)
    ensures Exclusive(Perform(w, a))
  {
    var w' := Perform(w, a);
    forall id, p, q | IsAt(w', p, id) && IsAt(w', q, id)
      ensures p == q
    {
      StepMoves(w, a, p, id);
      StepMoves(w, a, q, id);
      if a.Stamp? && id == a.id {
        NewIdIsNowhere(w, Before(w, a, p, id), id);
        NewIdIsNowhere(w, Before(w, a, q, id), id);
      } else {
        BeforeIsInjective(w, a, p, q, id);
      }
    }
  }

  lemma NewIdIsNowhere(w: World, p: Place, id: PlanId)
    requires Contents(w) && id !in w.issued
    ensures !IsAt(w, p, id)
  {
    if IsAt(w, p, id) {
      PlacedIsIssued(w, p, id);
    }
  }

  /** The invariant holds along every run. */
  lemma {:induction false} RunKeepsInv(w: World, actions: seq<Action>)
    requires Inv(w)
    ensures Inv(Run(w, actions))
    decreases |actions|
  {
    if actions != [] {
      if Enabled(w, actions[0]) {
        StepKeepsContents(w, actions[0]);
        StepKeepsExclusive(w, actions[0]);
        RunKeepsInv(Perform(w, actions[0]), actions[1..]);
      } else {
        RunKeepsInv(w, actions[1..]);
      }
    }
  }

  lemma StartIsFine()
    ensures Inv(START)
  {
  }

  lemma OnlyPlace(w: World, p: Place, q: Place, id: PlanId)
    requires Exclusive(w) && IsAt(w, p, id) && p != q
    ensures !IsAt(w, q, id)
  {
  }

  // ----- safety over every run --------------------------------------------

  /** Main result: in every interleaving, each plan id yields at most one
      signature; what is signed is the plan issued under that id, unsigned until
      then, for the wallet the signer had captured; and the plan had not expired
      when it was checked, which was no later than the signature. */
  lemma SignaturesAreSafe(actions: seq<Action>)
    ensures var w := Run(START, actions);
            && (forall j, k :: 0 <= j < k < |w.signatures| ==> w.signatures[j].id != w.signatures[k].id)
            && forall k :: 0 <= k < |w.signatures| ==>
                 var g := w.signatures[k];
                 && g.id in w.issued && w.issued[g.id] == g.plan && !g.plan.signed
                 && g.plan.walletPath == g.wallet
                 && g.clearedAt <= g.plan.expiresAt && g.clearedAt <= g.signedAt
  {
    var w := Run(START, actions);
    StartIsFine();
    RunKeepsInv(START, actions);
    forall j, k | 0 <= j < k < |w.signatures|
      ensures w.signatures[j].id != w.signatures[k].id
    {
      OnlyPlace(w, InSignature(j), InSignature(k), w.signatures[j].id);
    }
    forall k | 0 <= k < |w.signatures|
      ensures SignatureOk(w, w.signatures[k])
    {
    }
  }

  /** Every stored plan is unsigned, in every run, so `AlreadySigned` never arises. */
  lemma StoredPlansAreUnsigned(actions: seq<Action>, id: PlanId)
    requires id in Run(START, actions).store
    ensures var w := Run(START, actions);
            !w.store[id].plan.signed && id in w.issued && w.issued[id] == w.store[id].plan
  {
    StartIsFine();
    RunKeepsInv(START, actions);
    assert StoredOk(Run(START, actions), id);
  }

  /** A signed id is gone for good: no command holds it and the store does not. */
  lemma SignedIdsAreSpent(actions: seq<Action>, k: nat)
    requires k < |Run(START, actions).signatures|
    ensures var w := Run(START, actions);
            var id := w.signatures[k].id;
            id !in w.store && forall s: nat :: HeldBy(At(w, s)) != Some(id)
  {
    var w := Run(START, actions);
    var id := w.signatures[k].id;
    StartIsFine();
    RunKeepsInv(START, actions);
    OnlyPlace(w, InSignature(k), InStore, id);
    forall s: nat
      ensures HeldBy(At(w, s)) != Some(id)
    {
      OnlyPlace(w, InSignature(k), InSession(s), id);
    }
  }

  /** Main result: the purge is harmless. A plan that a purge at any time drops
      would be refused as expired at that time and at every later one. */
  lemma PurgedPlansHaveExpired(actions: seq<Action>, id: PlanId, purgedAt: int, later: int, wallet: string)
    requires id in Run(START, actions).store && id !in Purge(Run(START, actions).store, purgedAt)
    requires purgedAt <= later
    ensures Check(Run(START, actions).store[id].plan, wallet, later) in {Some(WalletMismatch), Some(PlanExpired)}
    ensures later > Run(START, actions).store[id].plan.expiresAt
  {
    StartIsFine();
    RunKeepsInv(START, actions);
    assert StoredOk(Run(START, actions), id);
  }

  /** The partner of safety: an unexpired plan is signed. Whatever happened before,
      a signer of the plan's wallet that is not interrupted produces the signature. */
  lemma UnexpiredPlanIsSigned(actions: seq<Action>, s: nat)
    requires var w := Run(START, actions);
             At(w, s).Signing? && At(w, s).id in w.store
             && w.store[At(w, s).id].plan.walletPath == At(w, s).wallet
             && w.now <= w.store[At(w, s).id].plan.expiresAt
    ensures var w := Run(START, actions);
            var c := At(w, s);
            Run(w, [Fetch(s), Clear(s), Emit(s)]).signatures ==
              w.signatures + [Signature(c.id, w.store[c.id].plan, c.wallet, w.now, w.now)]
  {
    var w := Run(START, actions);
    var c := At(w, s);
    StartIsFine();
    RunKeepsInv(START, actions);
    assert StoredOk(w, c.id);
    var w1 := Perform(w, Fetch(s));
    assert At(w1, s) == Holding(c.wallet, c.id, w.store[c.id].plan);
    var w2 := Perform(w1, Clear(s));
    assert At(w2, s) == Cleared(c.wallet, c.id, w.store[c.id].plan, w.now);
    var w3 := Perform(w2, Emit(s));
    assert [Fetch(s), Clear(s), Emit(s)][1..] == [Clear(s), Emit(s)];
    assert [Clear(s), Emit(s)][1..] == [Emit(s)];
    assert Run(w2, [Emit(s)]) == Run(w3, []);
    assert Run(w1, [Clear(s), Emit(s)]) == Run(w2, [Emit(s)]);
  }

  // ----- what is signed is what was prepared ------------------------------

  /** Where session `s` stood after the first `n` actions. */
  function After(actions: seq<Action>, n: nat, s: nat): Session
    requires n <= |actions|
  {
    At(Run(START, actions[..n]), s)
  }

  /** Action `k` began a preparation of session `s` for the wallet then active, and
      up to action `n` the session did nothing more. */
  ghost predicate Began(actions: seq<Action>, k: nat, n: nat, s: nat, wallet: string)
  {
    && k < n <= |actions| && actions[k] == BeginPrepare(s)
    && Run(START, actions[..k]).wallet == Some(wallet)
    && forall m :: k < m <= n ==> After(actions, m, s) == Preparing(wallet)
  }

  /** Action `i` built this plan in session `s`, which was preparing for the plan's
      wallet: its content, the time on the clock and 300 seconds more. Up to action
      `n` the session did nothing more. */
  ghost predicate MadeBy(actions: seq<Action>, i: nat, n: nat, s: nat, plan: Plan)
  {
    && i < n <= |actions| && actions[i] == Build(s, plan.content)
    && After(actions, i, s) == Preparing(plan.walletPath)
    && plan.createdAt == Run(START, actions[..i]).now && plan.expiresAt == plan.createdAt + 300
    && !plan.signed
    && forall m :: i < m <= n ==> After(actions, m, s) == Built(plan)
  }

  /** Action `j` issued the plan that session `s` had built, under this id. */
  predicate IssuedAt(actions: seq<Action>, j: nat, s: nat, id: PlanId)
  {
    j < |actions| && actions[j] == Stamp(s, id)
  }

  lemma PreparingStep(w: World, a: Action, s: nat)
    requires Enabled(w, a) && At(Perform(w, a), s).Preparing?
    ensures At(w, s).Preparing? ==> At(Perform(w, a), s) == At(w, s)
    ensures !At(w, s).Preparing? ==> a == BeginPrepare(s) && w.wallet == Some(At(Perform(w, a), s).wallet)
  {
  }

  lemma {:induction false} PreparationBegan(actions: seq<Action>, n: nat, s: nat) returns (k: nat)
    requires n <= |actions| && After(actions, n, s).Preparing?
    ensures Began(actions, k, n, s, After(actions, n, s).wallet)
    decreases n
  {
    assert n > 0 by {
      assert actions[..0] == [];
    }
    OneMoreAction(actions, n);
    if After(actions, n - 1, s) != After(actions, n, s) {
      PreparingStep(Run(START, actions[..n - 1]), actions[n - 1], s);
    }
    if After(actions, n - 1, s).Preparing? {
      k := PreparationBegan(actions, n - 1, s);
    } else {
      k := n - 1;
    }
  }

  lemma OneMoreAction(actions: seq<Action>, n: nat)
    requires 0 < n <= |actions|
    ensures var before, last := Run(START, actions[..n - 1]), actions[n - 1];
            Run(START, actions[..n]) == if Enabled(before, last) then Perform(before, last) else before
  {
    RunOneMore(START, actions[..n]);
    assert actions[..n][..n - 1] == actions[..n - 1];
  }

  /** A session gets to a built plan in one way, and stays there unchanged. */
  lemma BuiltStep(w: World, a: Action, s: nat)
    requires Enabled(w, a) && At(Perform(w, a), s).Built?
    ensures At(w, s).Built? ==> At(Perform(w, a), s) == At(w, s)
    ensures !At(w, s).Built? ==>
              var plan := At(Perform(w, a), s).plan;
              && a == Build(s, plan.content) && At(w, s) == Preparing(plan.walletPath)
              && plan == Plan(plan.content, plan.walletPath, w.now, w.now + 300, false)
  {
  }

  lemma {:induction false} PlanWasMade(actions: seq<Action>, n: nat, s: nat) returns (i: nat)
    requires n <= |actions| && After(actions, n, s).Built?
    ensures MadeBy(actions, i, n, s, After(actions, n, s).plan)
    decreases n
  {
    assert n > 0 by {
      assert actions[..0] == [];
    }
    OneMoreAction(actions, n);
    if After(actions, n - 1, s) != After(actions, n, s) {
      BuiltStep(Run(START, actions[..n - 1]), actions[n - 1], s);
    }
    if After(actions, n - 1, s).Built? {
      i := PlanWasMade(actions, n - 1, s);
    } else {
      i := n - 1;
    }
  }

  lemma {:induction false} IdWasIssued(actions: seq<Action>, n: nat, id: PlanId) returns (s: nat, j: nat)
    requires n <= |actions| && id in Run(START, actions[..n]).issued
    ensures j < n && IssuedAt(actions, j, s, id)
    ensures After(actions, j, s) == Built(Run(START, actions[..n]).issued[id])
    decreases n
  {
    assert n > 0 by {
      assert actions[..0] == [];
    }
    OneMoreAction(actions, n);
    var before := Run(START, actions[..n - 1]);
    if id in before.issued {
      s, j := IdWasIssued(actions, n - 1, id);
    } else {
      s, j := actions[n - 1].s, n - 1;
    }
  }

  /** Main result: whatever is issued in a run goes back to one preparation. Some
      session began for a wallet, then built the plan of that wallet and of its
      content at the time on its clock, to expire 300 seconds later, and then
      issued it under that id, with no step of its own in between. */
  lemma IssuedPlansArePrepared(actions: seq<Action>, id: PlanId) returns (s: nat, k: nat, i: nat, j: nat)
    requires id in Run(START, actions).issued
    ensures var plan := Run(START, actions).issued[id];
            && Began(actions, k, i, s, plan.walletPath)
            && MadeBy(actions, i, j, s, plan)
            && IssuedAt(actions, j, s, id)
  {
    assert actions[..|actions|] == actions;
    s, j := IdWasIssued(actions, |actions|, id);
    i := PlanWasMade(actions, j, s);
    k := PreparationBegan(actions, i, s);
  }

  /** So every signature is one of a plan that was prepared for the signer's wallet. */
  lemma SignedPlansArePrepared(actions: seq<Action>, n: nat) returns (s: nat, k: nat, i: nat, j: nat)
    requires n < |Run(START, actions).signatures|
    ensures var g := Run(START, actions).signatures[n];
            && Began(actions, k, i, s, g.wallet)
            && MadeBy(actions, i, j, s, g.plan)
            && IssuedAt(actions, j, s, g.id)
  {
    SignaturesAreSafe(actions);
    s, k, i, j := IssuedPlansArePrepared(actions, Run(START, actions).signatures[n].id);
  }

  /** A preparation and the signing of what it stored, by two sessions. */
  function PrepareAndSign(s: nat, signer: nat, content: seq<byte>, id: PlanId): seq<Action>
  {
    [Build(s, content), Stamp(s, id), Insert(s)] + ([BeginSign(signer, id)] + [Fetch(signer), Clear(signer), Emit(signer)])
  }

  /** From every reachable world: a session that prepares for the active wallet builds,
      stamps and stores a plan; another session signs it; the signature is of that
      content and wallet, of a plan created now and expiring 300 seconds later. */
  lemma PreparedIsSigned(actions: seq<Action>, s: nat, signer: nat, content: seq<byte>, id: PlanId)
    requires var w := Run(START, actions);
             && At(w, s).Preparing? && w.wallet == Some(At(w, s).wallet)
             && At(w, signer).Done? && id !in w.issued
    ensures var w := Run(START, actions);
            var wallet := At(w, s).wallet;
            Run(w, PrepareAndSign(s, signer, content, id)).signatures ==
              w.signatures + [Signature(id, Plan(content, wallet, w.now, w.now + 300, false), wallet, w.now, w.now)]
  {
    var w := Run(START, actions);
    var prepare := [Build(s, content), Stamp(s, id), Insert(s)];
    PreparedIsStored(w, s, content, id);
    assert At(Run(w, prepare), signer) == At(w, signer);
    RunConcat(w, prepare, [BeginSign(signer, id)] + [Fetch(signer), Clear(signer), Emit(signer)]);
    RunConcat(START, actions, prepare);
    StoredIsSigned(actions + prepare, signer, id);
  }

  /** A stored plan that has not expired is signed by whoever asks for it next with its wallet. */
  lemma StoredIsSigned(actions: seq<Action>, signer: nat, id: PlanId)
    requires var w := Run(START, actions);
             && At(w, signer).Done? && id in w.store && w.wallet == Some(w.store[id].plan.walletPath)
             && w.now <= w.store[id].plan.expiresAt
    ensures var w := Run(START, actions);
            var plan := w.store[id].plan;
            Run(w, [BeginSign(signer, id)] + [Fetch(signer), Clear(signer), Emit(signer)]).signatures ==
              w.signatures + [Signature(id, plan, plan.walletPath, w.now, w.now)]
  {
    var w := Run(START, actions);
    RunStep(w, BeginSign(signer, id), [Fetch(signer), Clear(signer), Emit(signer)]);
    RunConcat(START, actions, [BeginSign(signer, id)]);
    assert [BeginSign(signer, id)] == [BeginSign(signer, id)] + [];
    RunStep(w, BeginSign(signer, id), []);
    UnexpiredPlanIsSigned(actions + [BeginSign(signer, id)], signer);
  }

  lemma PreparedIsStored(w: World, s: nat, content: seq<byte>, id: PlanId)
    requires At(w, s).Preparing? && id !in w.issued
    ensures var after := Run(w, [Build(s, content), Stamp(s, id), Insert(s)]);
            && id in after.store && after.now == w.now && after.wallet == w.wallet && after.signatures == w.signatures
            && after.store[id].plan == Plan(content, At(w, s).wallet, w.now, w.now + 300, false)
            && forall other: nat :: other != s ==> At(after, other) == At(w, other)
  {
    var w1 := Perform(w, Build(s, content));
    var w2 := Perform(w1, Stamp(s, id));
    assert [Build(s, content), Stamp(s, id), Insert(s)] == [Build(s, content)] + [Stamp(s, id), Insert(s)];
    RunStep(w, Build(s, content), [Stamp(s, id), Insert(s)]);
    assert [Stamp(s, id), Insert(s)] == [Stamp(s, id)] + [Insert(s)];
    RunStep(w1, Stamp(s, id), [Insert(s)]);
    assert [Insert(s)] == [Insert(s)] + [];
    RunStep(w2, Insert(s), []);
  }

  // ----- the expiry check is not the signature ----------------------------

  /** The session whose step an action is. */
  function Actor(a: Action): Option<nat>
  {
    match a
    case Tick(_) => None
    case Switch(_) => None
    case BeginPrepare(s) => Some(s)
    case Build(s, _) => Some(s)
    case Stamp(s, _) => Some(s)
    case Insert(s) => Some(s)
    case BeginSign(s, _) => Some(s)
    case Fetch(s) => Some(s)
    case Clear(s) => Some(s)
    case Emit(s) => Some(s)
    case Fail(s) => Some(s)
  }

  /** Actions of everything but session `s`. */
  predicate LeavesAlone(actions: seq<Action>, s: nat)
  {
    forall i :: 0 <= i < |actions| ==> Actor(actions[i]) != Some(s)
  }

  lemma {:induction false} SessionWaits(w: World, actions: seq<Action>, s: nat)
    requires LeavesAlone(actions, s)
    ensures At(Run(w, actions), s) == At(w, s)
    decreases |actions|
  {
    if actions != [] {
      assert Actor(actions[0]) != Some(s);
      SessionWaits(if Enabled(w, actions[0]) then Perform(w, actions[0]) else w, actions[1..], s);
    }
  }

  /** Session `s` checks the plan it holds, `others` happen, and then it signs. */
  function SignedAfter(w: World, s: nat, others: seq<Action>): World
  {
    Run(w, [Clear(s)] + others + [Emit(s)])
  }

  /** The run ends with a signature of session `s`'s plan, before its expiry. */
  predicate InTime(w: World, s: nat, others: seq<Action>)
  {
    var made := SignedAfter(w, s, others).signatures;
    && made != [] && At(w, s).Holding?
    && made[|made| - 1].id == At(w, s).id && made[|made| - 1].plan == At(w, s).plan
    && made[|made| - 1].signedAt <= made[|made| - 1].plan.expiresAt
  }

  lemma SignsWhenDone(w: World, s: nat, others: seq<Action>)
    requires At(w, s).Holding? && Check(At(w, s).plan, At(w, s).wallet, w.now).None? && LeavesAlone(others, s)
    ensures var c := At(w, s);
            var before := Run(w, [Clear(s)] + others);
            SignedAfter(w, s, others).signatures ==
              before.signatures + [Signature(c.id, c.plan, c.wallet, w.now, before.now)]
  {
    var w1 := Perform(w, Clear(s));
    RunStep(w, Clear(s), others);
    SessionWaits(w1, others, s);
    RunConcat(w, [Clear(s)] + others, [Emit(s)]);
    assert [Emit(s)] + [] == [Emit(s)];
    RunStep(Run(w1, others), Emit(s), []);
  }

  /** Between the expiry check and the signature the command waits for the
      database and the one-time code. The exact condition for a signer that holds
      a plan which would pass the check now: with a bound on the time those waits
      take, every continuation signs in time if and only if the bound is no more
      than what is left until the expiry. */
  lemma InTimeIffWaitFits(w: World, s: nat, wait: nat)
    requires At(w, s).Holding? && Check(At(w, s).plan, At(w, s).wallet, w.now).None?
    ensures (forall others :: LeavesAlone(others, s) && Run(w, [Clear(s)] + others).now <= w.now + wait ==>
               InTime(w, s, others))
            <==> wait <= At(w, s).plan.expiresAt - w.now
  {
    forall others | LeavesAlone(others, s)
      ensures InTime(w, s, others) <==> Run(w, [Clear(s)] + others).now <= At(w, s).plan.expiresAt
    {
      SignsWhenDone(w, s, others);
    }
    var idle := [Tick(w.now + wait)];
    assert LeavesAlone(idle, s);
    RunStep(w, Clear(s), idle);
    assert idle == idle + [];
    RunStep(Perform(w, Clear(s)), Tick(w.now + wait), []);
    assert Run(w, [Clear(s)] + idle).now == w.now + wait;
  }

  const PREPARE_RUN: seq<Action> := [
    Switch(Some("wallet")), BeginPrepare(1), Build(1, []), Stamp(1, "id"), Insert(1)]

  const SIGN_RUN: seq<Action> := [BeginSign(2, "id"), Fetch(2), Clear(2), Tick(1000), Emit(2)]

  const EARLY_PLAN := Plan([], "wallet", 0, 300, false)

  lemma PrepareRunStores()
    ensures var w := Run(START, PREPARE_RUN);
            && w.now == 0 && w.wallet == Some("wallet") && w.signatures == []
            && w.store == map["id" := PendingPlan(EARLY_PLAN, 0)] && At(w, 2) == Done
  {
    var w1 := START.(wallet := Some("wallet"));
    var w2 := Move(w1, 1, Preparing("wallet"));
    RunStep(START, PREPARE_RUN[0], PREPARE_RUN[1..]);
    RunStep(w1, PREPARE_RUN[1], PREPARE_RUN[2..]);
    assert PREPARE_RUN == [PREPARE_RUN[0]] + PREPARE_RUN[1..];
    assert PREPARE_RUN[1..] == [PREPARE_RUN[1]] + PREPARE_RUN[2..];
    FinishPreparing(w2);
  }

  lemma FinishPreparing(w2: World)
    requires w2.now == 0 && w2.store == map[] && w2.issued == map[] && At(w2, 1) == Preparing("wallet")
    ensures var w := Run(w2, PREPARE_RUN[2..]);
            && w.now == 0 && w.wallet == w2.wallet && w.signatures == w2.signatures && At(w, 2) == At(w2, 2)
            && w.store == map["id" := PendingPlan(EARLY_PLAN, 0)]
  {
    var w3 := Move(w2, 1, Built(EARLY_PLAN));
    var w4 := Move(w3.(issued := map["id" := EARLY_PLAN]), 1, Stamped(EARLY_PLAN, "id", 0));
    assert PREPARE_RUN[2..] == [Build(1, [])] + [Stamp(1, "id"), Insert(1)];
    RunStep(w2, Build(1, []), [Stamp(1, "id"), Insert(1)]);
    assert [Stamp(1, "id"), Insert(1)] == [Stamp(1, "id")] + [Insert(1)];
    RunStep(w3, Stamp(1, "id"), [Insert(1)]);
    assert [Insert(1)] == [Insert(1)] + [];
    RunStep(w4, Insert(1), []);
  }

  lemma SignRunIsLate(w: World)
    requires w.now == 0 && w.wallet == Some("wallet") && w.signatures == []
    requires w.store == map["id" := PendingPlan(EARLY_PLAN, 0)] && At(w, 2) == Done
    ensures Run(w, SIGN_RUN).signatures == [Signature("id", EARLY_PLAN, "wallet", 0, 1000)]
  {
    var w1 := Move(w, 2, Signing("wallet", "id"));
    assert SIGN_RUN == [SIGN_RUN[0]] + SIGN_RUN[1..];
    RunStep(w, SIGN_RUN[0], SIGN_RUN[1..]);
    FetchedPlanSignedLate(w1);
  }

  lemma FetchedPlanSignedLate(w: World)
    requires w.now == 0 && w.signatures == [] && At(w, 2) == Signing("wallet", "id")
    requires w.store == map["id" := PendingPlan(EARLY_PLAN, 0)]
    ensures Run(w, SIGN_RUN[1..]).signatures == [Signature("id", EARLY_PLAN, "wallet", 0, 1000)]
  {
    assert "id" in Purge(w.store, 0);
    assert SIGN_RUN[1..] == [Fetch(2)] + SIGN_RUN[2..];
    RunStep(w, Fetch(2), SIGN_RUN[2..]);
    HeldPlanSignedLate(Perform(w, Fetch(2)));
  }

  lemma HeldPlanSignedLate(w: World)
    requires w.now == 0 && w.signatures == [] && At(w, 2) == Holding("wallet", "id", EARLY_PLAN)
    ensures Run(w, SIGN_RUN[2..]).signatures == [Signature("id", EARLY_PLAN, "wallet", 0, 1000)]
  {
    var w1 := Move(w, 2, Cleared("wallet", "id", EARLY_PLAN, 0));
    var w2 := w1.(now := 1000);
    assert SIGN_RUN[2..] == [Clear(2)] + [Tick(1000), Emit(2)];
    RunStep(w, Clear(2), [Tick(1000), Emit(2)]);
    assert [Tick(1000), Emit(2)] == [Tick(1000)] + [Emit(2)];
    RunStep(w1, Tick(1000), [Emit(2)]);
    assert [Emit(2)] == [Emit(2)] + [];
    RunStep(w2, Emit(2), []);
  }

  /** A run in which the plan, checked at time 0, is signed at time 1000, long
      after it expired at 300. */
  lemma SignatureCanBeLate()
    ensures var made := Run(START, PREPARE_RUN + SIGN_RUN).signatures;
            |made| == 1 && made[0].clearedAt <= made[0].plan.expiresAt < made[0].signedAt
  {
    PrepareRunStores();
    RunConcat(START, PREPARE_RUN, SIGN_RUN);
    SignRunIsLate(Run(START, PREPARE_RUN));
  }
}
