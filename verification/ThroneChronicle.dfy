/**
 A throne's record and the emitted events tell the same story: who captured, when, with what
 balance, under which deadline, and whether it was settled.
*/
module ThroneChronicle {
  import opened Bytes
  import opened Token
  import opened Throne
  import opened ThroneSafety
  import opened Wrappers

  /** The capture events of one pet, oldest first. */
  function CapturesOf(log: seq<Event>, p: Address): seq<Event> {
    if log == [] then []
    else
      var e := log[|log| - 1];
      CapturesOf(log[..|log| - 1], p) + if e.ThroneCaptured? && e.pet == p then [e] else []
  }

  function SettlementsOf(log: seq<Event>, p: Address): seq<Event> {
    if log == [] then []
    else
      var e := log[|log| - 1];
      SettlementsOf(log[..|log| - 1], p) + if e.ThroneSettled? && e.pet == p then [e] else []
  }

  lemma AppendEvent(log: seq<Event>, e: Event, p: Address)
    ensures CapturesOf(log + [e], p) == CapturesOf(log, p) + if e.ThroneCaptured? && e.pet == p then [e] else []
    ensures SettlementsOf(log + [e], p) == SettlementsOf(log, p) + if e.ThroneSettled? && e.pet == p then [e] else []
  {
    assert (log + [e])[..|log|] == log;
  }

  function Min(a: nat, b: nat): nat {
    if a < b then a else b
  }

  /** Capture `i` follows from the one before it and lies in the window that the first one opened. */
  ghost predicate Link(caps: seq<Event>, i: nat)
    requires i < |caps|
  {
    && caps[i].ThroneCaptured? && caps[0].ThroneCaptured?
    && (caps[i].firstCapture <==> i == 0)
    && caps[i].previousChampion
       == (if i > 0 && caps[i - 1].ThroneCaptured? then caps[i - 1].newChampion else SYSTEM_PROGRAM)
    && caps[i].newChampion != SYSTEM_PROGRAM
    && caps[i].takeOvers == Min(i + 1, 4_294_967_295)
    && caps[i].championBalance >= i + 1
    && caps[i].settlesAtSlot == caps[0].slot + 1_512_000
    && caps[0].slot <= caps[i].slot < caps[0].slot + 1_512_000
  }

  /** Balances strictly increase and slots do not decrease. */
  ghost predicate Rising(caps: seq<Event>) {
    forall i, j :: 0 <= i < j < |caps| ==>
      && caps[i].ThroneCaptured? && caps[j].ThroneCaptured?
      && caps[i].championBalance < caps[j].championBalance && caps[i].slot <= caps[j].slot
  }

  /** A chain of captures under one deadline. */
  ghost predicate Chain(caps: seq<Event>) {
    (forall i :: 0 <= i < |caps| ==> Link(caps, i)) && Rising(caps)
  }

  /** The stored record is determined by the captures ... */
  ghost predicate MatchesCaptures(k: KingOfHill, caps: seq<Event>, now: nat)
    requires Chain(caps)
  {
    && (caps != [] ==> Link(caps, 0) && Link(caps, |caps| - 1))
    && (k.IsUnclaimed() <==> caps == [])
    && (k.settlesAtSlot == 0 <==> caps == [])
    && k.takeOvers == Min(|caps|, 4_294_967_295)
    && (caps == [] ==> k.currentChampion == SYSTEM_PROGRAM && k.championBalance == 0 && k.lastCapturedSlot == 0)
    && (caps != [] ==>
          var last := caps[|caps| - 1];
          && k.currentChampion == last.newChampion
          && k.championBalance == last.championBalance <= U64_MAX
          && k.lastCapturedSlot == last.slot <= now
          && k.settlesAtSlot == caps[0].slot + 1_512_000 <= U64_MAX)
  }

  /** ... and by the settlement, of which there is at most one, at or after the deadline. */
  ghost predicate MatchesSettlement(k: KingOfHill, ends: seq<Event>, now: nat) {
    && |ends| == (if k.settled then 1 else 0)
    && (k.settled ==>
          && k.settlesAtSlot != 0 && ends[0].ThroneSettled?
          && ends[0].finalChampion == k.currentChampion && ends[0].takeOvers == k.takeOvers
          && k.settlesAtSlot <= ends[0].slot <= now)
  }

  ghost predicate Recorded(k: KingOfHill, caps: seq<Event>, ends: seq<Event>, now: nat) {
    Chain(caps) && MatchesCaptures(k, caps, now) && MatchesSettlement(k, ends, now)
  }

  /** A pet with a king has its story told by the log; a pet without one has no story. */
  ghost predicate PetChronicled(s: State, p: Address) {
    if p in s.kings then Recorded(s.kings[p], CapturesOf(s.log, p), SettlementsOf(s.log, p), s.slot)
    else CapturesOf(s.log, p) == [] && SettlementsOf(s.log, p) == []
  }

  ghost predicate Chronicled(s: State) {
    forall p: Address :: PetChronicled(s, p)
  }

  // ---------------------------------------------------------------- one step

  /** The event continues the chain. */
  ghost predicate Continues(caps: seq<Event>, e: Event)
    requires Chain(caps)
  {
    && e.ThroneCaptured? && e.newChampion != SYSTEM_PROGRAM
    && (e.firstCapture <==> caps == [])
    && e.takeOvers == Min(|caps| + 1, U32_MAX)
    && if caps == [] then
         && e.previousChampion == SYSTEM_PROGRAM && e.championBalance > 0
         && e.settlesAtSlot == e.slot + THRONE_SETTLEMENT_SLOTS
       else
         var last := caps[|caps| - 1];
         assert Link(caps, |caps| - 1);
         && e.previousChampion == last.newChampion && e.championBalance > last.championBalance
         && e.settlesAtSlot == caps[0].slot + THRONE_SETTLEMENT_SLOTS
         && last.slot <= e.slot < e.settlesAtSlot
  }

  lemma RisingGrows(caps: seq<Event>, e: Event)
    requires Rising(caps) && e.ThroneCaptured?
    requires caps != [] ==>
               var last := caps[|caps| - 1];
               last.ThroneCaptured? && last.championBalance < e.championBalance && last.slot <= e.slot
    ensures Rising(caps + [e])
  {
    var more, n := caps + [e], |caps|;
    forall i, j | 0 <= i < j < |more|
      ensures && more[i].ThroneCaptured? && more[j].ThroneCaptured?
              && more[i].championBalance < more[j].championBalance && more[i].slot <= more[j].slot
    {
      if i < n - 1 {
        assert caps[i].ThroneCaptured?;
        assert caps[i].championBalance < caps[n - 1].championBalance && caps[i].slot <= caps[n - 1].slot;
      }
    }
  }

  /** A capture appends one link. */
  lemma ChainGrows(caps: seq<Event>, e: Event)
    requires Chain(caps) && Continues(caps, e)
    ensures Chain(caps + [e])
  {
    var more, n := caps + [e], |caps|;
    if caps != [] {
      assert Link(caps, 0) && Link(caps, n - 1);
    }
    forall i | 0 <= i < |more| ensures Link(more, i) {
      if i < n {
        assert Link(caps, i);
        assert more[i] == caps[i] && more[0] == caps[0] && (i > 0 ==> more[i - 1] == caps[i - 1]);
      }
    }
    RisingGrows(caps, e);
  }

  /** How one capture changes the record and what event it leaves. */
  ghost predicate CaptureStory(k: KingOfHill, k': KingOfHill, e: Event, now: nat) {
    && e.ThroneCaptured? && e.slot == now
    && e.newChampion != SYSTEM_PROGRAM && e.previousChampion == k.currentChampion
    && k.championBalance < e.championBalance <= U64_MAX
    && e.takeOvers == SaturatingInc(k.takeOvers)
    && (e.firstCapture <==> k.IsUnclaimed())
    && e.settlesAtSlot <= U64_MAX
    && (if k.IsUnclaimed() then e.settlesAtSlot == now + THRONE_SETTLEMENT_SLOTS
        else e.settlesAtSlot == k.settlesAtSlot && !IsWindowOver(now, k.settlesAtSlot))
    && !k.settled
    && k' == k.(currentChampion := e.newChampion, championBalance := e.championBalance,
                lastCapturedSlot := now, takeOvers := e.takeOvers, settlesAtSlot := e.settlesAtSlot)
  }

  lemma TakeStory(s: State, a: TakeAccounts, t: State)
    requires LedgerOk(s) && Captured(s, a, t) && s.kings[a.pet].settlesAtSlot <= U64_MAX
    ensures var e := t.log[|s.log|];
            && t.log == s.log + [e] && e.ThroneCaptured? && e.pet == a.pet && t.slot == s.slot
            && a.pet in t.kings && CaptureStory(s.kings[a.pet], t.kings[a.pet], e, s.slot)
  {
    WithinSupply(s.ledger, a.pumpAta);
  }

  lemma StoryRecorded(k: KingOfHill, caps: seq<Event>, ends: seq<Event>, now: nat, k': KingOfHill, e: Event)
    requires Recorded(k, caps, ends, now) && CaptureStory(k, k', e, now)
    ensures Recorded(k', caps + [e], ends, now)
  {
    var more := caps + [e];
    assert Continues(caps, e);
    ChainGrows(caps, e);
    assert Link(more, 0) && Link(more, |more| - 1);
    assert more[|more| - 1] == e && more[0] == (if caps == [] then e else caps[0]);
  }

  lemma CaptureRecorded(s: State, a: TakeAccounts, t: State)
    requires LedgerOk(s) && PetChronicled(s, a.pet) && Captured(s, a, t)
    ensures PetChronicled(t, a.pet)
  {
    var e := t.log[|s.log|];
    TakeStory(s, a, t);
    AppendEvent(s.log, e, a.pet);
    StoryRecorded(s.kings[a.pet], CapturesOf(s.log, a.pet), SettlementsOf(s.log, a.pet), s.slot, t.kings[a.pet], e);
  }

  lemma SettlementRecorded(s: State, p: Address, ata: Address, t: State)
    requires PetChronicled(s, p) && Settled(s, p, ata, t)
    ensures PetChronicled(t, p)
  {
    var k, e := s.kings[p], t.log[|s.log|];
    assert e == ThroneSettled(p, k.currentChampion, k.takeOvers, s.slot);
    AppendEvent(s.log, e, p);
    assert SettlementsOf(t.log, p) == [e] && CapturesOf(t.log, p) == CapturesOf(s.log, p);
    assert t.kings[p] == k.(settled := true);
  }

  /** An event about something else leaves a pet's story as it was. */
  lemma AnotherEvent(s: State, t: State, e: Event, p: Address)
    requires t.log == s.log + [e] && !((e.ThroneCaptured? || e.ThroneSettled?) && e.pet == p)
    requires (p in t.kings <==> p in s.kings) && (p in s.kings ==> t.kings[p] == s.kings[p])
    ensures SameStory(s, t, p)
  {
    AppendEvent(s.log, e, p);
  }

  /** A pet that the step is not about keeps its record and its events. */
  lemma OthersKept(s: State, step: Step, t: State, p: Address)
    requires Effect(s, step, t)
    requires !(step.TakeThrone? && step.accounts.pet == p)
    requires !((step.SettleThrone? || step.MintKolNft?) && step.pet == p)
    ensures SameStory(s, t, p)
  {
    if step.TakeThrone? {
      OtherCaptured(s, step.accounts, t, p);
    } else if step.SettleThrone? {
      OtherSettled(s, step.pet, step.championAta, t, p);
    } else if step.MintKolNft? {
      OtherMinted(s, step.pet, step.nftMint, t, p);
    } else if step.BindLaunch? {
      OtherBound(s, step.kolOwner, step.pumpMint, step.kolName, t, p);
    }
  }

  lemma OtherCaptured(s: State, a: TakeAccounts, t: State, p: Address)
    requires Captured(s, a, t) && a.pet != p
    ensures SameStory(s, t, p)
  {
    AnotherEvent(s, t, t.log[|s.log|], p);
  }

  lemma OtherSettled(s: State, pet: Address, ata: Address, t: State, p: Address)
    requires Settled(s, pet, ata, t) && pet != p
    ensures SameStory(s, t, p)
  {
    AnotherEvent(s, t, t.log[|s.log|], p);
  }

  lemma OtherMinted(s: State, pet: Address, nftMint: Address, t: State, p: Address)
    requires Minted(s, pet, nftMint, t) && pet != p
    ensures SameStory(s, t, p)
  {
    AnotherEvent(s, t, t.log[|s.log|], p);
  }

  lemma OtherBound(s: State, kolOwner: Address, pumpMint: Address, kolName: Bytes32, t: State, p: Address)
    requires Bound(s, kolOwner, pumpMint, kolName, t)
    ensures SameStory(s, t, p)
  {
    AnotherEvent(s, t, t.log[|s.log|], p);
  }

  ghost predicate SameStory(s: State, t: State, p: Address) {
    && (p in t.kings <==> p in s.kings)
    && (p in s.kings ==> t.kings[p] == s.kings[p])
    && CapturesOf(t.log, p) == CapturesOf(s.log, p)
    && SettlementsOf(t.log, p) == SettlementsOf(s.log, p)
  }

  lemma SameStoryChronicled(s: State, t: State, p: Address)
    requires SameStory(s, t, p) && PetChronicled(s, p) && s.slot <= t.slot
    ensures PetChronicled(t, p)
  {
  }

  lemma MintRecorded(s: State, pet: Address, nftMint: Address, t: State)
    requires Minted(s, pet, nftMint, t) && PetChronicled(s, pet)
    ensures PetChronicled(t, pet)
  {
    AppendEvent(s.log, t.log[|s.log|], pet);
  }

  lemma PetStep(s: State, step: Step, t: State, p: Address)
    requires LedgerOk(s) && PetChronicled(s, p) && Effect(s, step, t)
    ensures PetChronicled(t, p)
  {
    if step.TakeThrone? && step.accounts.pet == p {
      CaptureRecorded(s, step.accounts, t);
    } else if step.SettleThrone? && step.pet == p {
      SettlementRecorded(s, p, step.championAta, t);
    } else if step.MintKolNft? && step.pet == p {
      MintRecorded(s, p, step.nftMint, t);
    } else {
      OthersKept(s, step, t, p);
      SlotStep(s, step, t);
      SameStoryChronicled(s, t, p);
    }
  }

  lemma ChronicledStep(s: State, step: Step)
    requires Safe(s) && Chronicled(s)
    ensures Chronicled(Next(s, step))
  {
    if TryStep(s, step).Success? {
      var t := TryStep(s, step).value;
      StepEffect(s, step, t);
      forall p: Address ensures PetChronicled(t, p) {
        assert PetChronicled(s, p);
        PetStep(s, step, t, p);
      }
    }
  }

  /**
   Over every run, whoever takes the steps: the record of every throne is the one its events
   determine. In particular `is_unclaimed` holds exactly when there was no capture, the
   deadline is written once, captures lie in the window, balances strictly increase,
   `take_overs` is the saturated count and never exceeds the balance, and a settlement comes
   no earlier than the deadline and only once.
  */
  lemma {:induction false} ChronicledRun(s: State, steps: seq<Step>)
    requires Safe(s) && Chronicled(s)
    ensures Safe(Run(s, steps)) && Chronicled(Run(s, steps))
  {
    SafeRun(s, steps);
    if steps != [] {
      var n := |steps| - 1;
      ChronicledRun(s, steps[..n]);
      ChronicledStep(Run(s, steps[..n]), steps[n]);
    }
  }

  lemma {:induction false} GenesisChronicled(rule: RevokeRule, oracle: Address, slot: U64)
    ensures Safe(Genesis(rule, oracle, slot)) && Chronicled(Genesis(rule, oracle, slot))
  {
  }

  // ---------------------------------------------------------------- consequences

  /** Each throne can be captured at most as often as its latest balance has units. */
  lemma {:induction false} BoundedCaptures(s: State, p: Address)
    requires PetChronicled(s, p) && p in s.kings
    ensures var k := s.kings[p];
            && |CapturesOf(s.log, p)| <= k.championBalance <= U64_MAX
            && k.takeOvers <= k.championBalance
            && (k.takeOvers == Min(|CapturesOf(s.log, p)|, 4_294_967_295))
  {
    var caps := CapturesOf(s.log, p);
    if caps != [] {
      assert Link(caps, |caps| - 1);
    }
  }

  /** `u64::MAX - champion_balance` decreases with every capture of a throne. */
  lemma {:induction false} CaptureMeasure(s: State, a: TakeAccounts)
    requires LedgerOk(s) && DoTakeThrone(s, a).Success?
    ensures Captured(s, a, DoTakeThrone(s, a).value)
    ensures var k, k' := s.kings[a.pet], DoTakeThrone(s, a).value.kings[a.pet];
            0 <= U64_MAX - k'.championBalance < U64_MAX - k.championBalance
  {
    TakeShape(s, a);
    WithinSupply(s.ledger, a.pumpAta);
  }

  /** No state allows one throne to be both captured and settled. */
  lemma {:induction false} CaptureExcludesSettlement(s: State, a: TakeAccounts, signer: Address, ata: Address,
                                                       nftMint: Address)
    ensures DoTakeThrone(s, a).Failure? || DoSettleThrone(s, signer, a.pet, ata, nftMint).Failure?
  {
  }

  /** Nothing that happens later changes a settled throne. */
  lemma {:induction false} SettledForever(s: State, steps: seq<Step>, p: Address)
    requires BindingOk(s) && p in s.kings && s.kings[p].settled
    ensures BindingOk(Run(s, steps))
    ensures p in Run(s, steps).kings && Run(s, steps).kings[p] == s.kings[p]
  {
    if steps != [] {
      var n := |steps| - 1;
      SettledForever(s, steps[..n], p);
      BindingNext(Run(s, steps[..n]), steps[n]);
      KingStep(Run(s, steps[..n]), steps[n], p);
      SettledKept(Run(s, steps[..n]), Run(s, steps), p);
    }
  }

  lemma SettledKept(s: State, t: State, p: Address)
    requires p in s.kings && s.kings[p].settled && p in t.kings && KingChange(s, t, p)
    ensures t.kings[p] == s.kings[p]
  {
  }

  /** The off-chain slot helpers agree with the handler wherever the addition fits in a u64. */
  lemma {:induction false} SlotHelpersAgree(s: State, a: TakeAccounts)
    requires DoTakeThrone(s, a).Success?
    ensures Captured(s, a, DoTakeThrone(s, a).value)
    ensures !IsWindowOver(s.slot, s.kings[a.pet].settlesAtSlot)
    ensures s.kings[a.pet].IsUnclaimed() ==>
              DoTakeThrone(s, a).value.kings[a.pet].settlesAtSlot == SettlesAt(s.slot)
              && !IsWindowOver(s.slot, SettlesAt(s.slot))
  {
    TakeShape(s, a);
  }

  // ---------------------------------------------------------------- bindings over runs

  /** A pet's memecoin never changes once bound. */
  lemma {:induction false} BindingPermanent(s: State, steps: seq<Step>, p: Address)
    requires BindingOk(s) && p in s.launches
    ensures BindingOk(Run(s, steps))
    ensures p in Run(s, steps).launches && Run(s, steps).launches[p].pumpMint == s.launches[p].pumpMint
  {
    if steps != [] {
      var n := |steps| - 1;
      BindingPermanent(s, steps[..n], p);
      BindingNext(Run(s, steps[..n]), steps[n]);
    }
  }

  /** All captures of one throne, however far apart, compare balances of one and the same mint. */
  lemma {:induction false} CapturesCompareOneMint(s: State, a: TakeAccounts, steps: seq<Step>, b: TakeAccounts)
    requires BindingOk(s) && a.pet == b.pet
    requires DoTakeThrone(s, a).Success? && DoTakeThrone(Run(s, steps), b).Success?
    ensures TakeGuards(s, a) && TakeGuards(Run(s, steps), b)
    ensures s.ledger[a.pumpAta].mint == Run(s, steps).ledger[b.pumpAta].mint == s.launches[a.pet].pumpMint
    ensures s.launches[a.pet].pumpMint != SYSTEM_PROGRAM
  {
    TakeShape(s, a);
    TakeShape(Run(s, steps), b);
    BindingPermanent(s, steps, a.pet);
  }

  lemma PetKept(s: State, step: Step, t: State, p: Address)
    requires BindingOk(s) && Effect(s, step, t) && p in s.pets && s.pets[p].owner != SYSTEM_PROGRAM
    ensures p in t.pets && t.pets[p] == s.pets[p]
  {
  }

  /** A pet's owner, name and first slot never change, however often it is bound again. */
  lemma {:induction false} PetPermanent(s: State, steps: seq<Step>, p: Address)
    requires BindingOk(s) && p in s.pets && s.pets[p].owner != SYSTEM_PROGRAM
    ensures BindingOk(Run(s, steps))
    ensures p in Run(s, steps).pets && Run(s, steps).pets[p] == s.pets[p]
  {
    if steps != [] {
      var n := |steps| - 1;
      var u := Run(s, steps[..n]);
      PetPermanent(s, steps[..n], p);
      BindingNext(u, steps[n]);
      if TryStep(u, steps[n]).Success? {
        StepEffect(u, steps[n], TryStep(u, steps[n]).value);
        PetKept(u, steps[n], TryStep(u, steps[n]).value, p);
      }
    }
  }
}
