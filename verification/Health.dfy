/**
 * Entry state, failure classification and the health machine
 * (src/router/mod.rs, src/health/mod.rs and the setters of src/storage/mod.rs).
 */
module Health {
  import opened Base
  import opened Domain

  type Entries = map<int, RouteEntry>

  // ---------------------------------------------------------------- entry setters

  function WithStatus(es: Entries, id: int, status: ModelStatus): Entries {
    if id in es then es[id := es[id].(status := status)] else es
  }

  function WithCooldown(es: Entries, id: int, until: int): Entries {
    if id in es then es[id := es[id].(cooldownUntil := if until < 0 then 0 else until)] else es
  }

  function WithVision(es: Entries, id: int, vision: bool): Entries {
    if id in es then es[id := es[id].(capabilities := es[id].capabilities.(vision := vision))] else es
  }

  /** One row of the usage log. */
  datatype UsageRow = UsageRow(
    entryId: int,
    success: bool,
    status: Option<int>,
    error: Option<string>,
    promptTokens: Option<int>,
    completionTokens: Option<int>,
    cachedTokens: Option<int>)

  class Store {
    var entries: Entries
    var usage: seq<UsageRow>

    constructor (initial: Entries)
      ensures entries == initial && usage == []
    {
      entries, usage := initial, [];
    }

    method SetRouteEntryStatus(id: int, status: ModelStatus)
      modifies this`entries
      ensures entries == WithStatus(old(entries), id, status)
    {
      if id in entries {
        entries := entries[id := entries[id].(status := status)];
      }
    }

    method SetRouteEntryCooldown(id: int, until: int)
      modifies this`entries
      ensures entries == WithCooldown(old(entries), id, until)
    {
      if id in entries {
        entries := entries[id := entries[id].(cooldownUntil := if until < 0 then 0 else until)];
      }
    }

    method SetRouteEntryVision(id: int, vision: bool)
      modifies this`entries
      ensures entries == WithVision(old(entries), id, vision)
    {
      if id !in entries {
        return;
      }
      var caps := entries[id].capabilities;
      if caps.vision == vision {
        return;
      }
      entries := entries[id := entries[id].(capabilities := caps.(vision := vision))];
    }

    method RecordUsage(row: UsageRow)
      modifies this`usage
      ensures usage == old(usage) + [row]
    {
      usage := usage + [row];
    }
  }

  // ---------------------------------------------------------------- failures

  datatype FailureAction = ClearVision | Demote(status: ModelStatus) | Ignore

  const MASK_SKIP := "AGOS_MASK_SKIP"
  const MASK_FAILED := "AGOS_MASK_FAILED"
  const ADAPTER_CAPABILITY_SKIP := "adapter capability skip"

  /** `imageRejection` recognises an image refusal; this model leaves it open. */
  function ClassifyFailure(imageRejection: string -> bool, status: Option<int>, message: string): FailureAction {
    if Contains(message, MASK_SKIP) || Contains(message, MASK_FAILED) then Ignore
    else if Contains(message, ADAPTER_CAPABILITY_SKIP) then Ignore
    else if status == Some(429) then Demote(Degraded)
    else if status.Some? && 400 <= status.value < 500 then
      if imageRejection(message) then ClearVision else Ignore
    else Demote(Unhealthy)
  }

  /** A message with one of the markers of a skipped or failed mask, or of an adapter that cannot serve the request. */
  predicate Marked(message: string) {
    || Contains(message, MASK_SKIP)
    || Contains(message, MASK_FAILED)
    || Contains(message, ADAPTER_CAPABILITY_SKIP)
  }

  /** A status by which an upstream refuses the request. */
  predicate Refusing(status: Option<int>) {
    status.Some? && 400 <= status.value < 500
  }

  /** One failed attempt, with the entry as it was when the target list was resolved. */
  datatype Failure = Failure(entry: RouteEntry, status: Option<int>, message: string, retryAfter: Option<int>)

  function ActionOf(imageRejection: string -> bool, f: Failure): FailureAction {
    ClassifyFailure(imageRejection, f.status, f.message)
  }

  function Applied(imageRejection: string -> bool, es: Entries, f: Failure): Entries {
    match ActionOf(imageRejection, f)
    case ClearVision => if f.entry.capabilities.vision then WithVision(es, f.entry.id, false) else es
    case Demote(status) => WithStatus(es, f.entry.id, status)
    case Ignore => es
  }

  method ApplyFailureAction(imageRejection: string -> bool, store: Store, f: Failure) returns (action: FailureAction)
    modifies store`entries
    ensures store.entries == Applied(imageRejection, old(store.entries), f)
    ensures action == ActionOf(imageRejection, f)
  {
    action := ClassifyFailure(imageRejection, f.status, f.message);
    match action
    case ClearVision =>
      if f.entry.capabilities.vision {
        store.SetRouteEntryVision(f.entry.id, false);
      }
    case Demote(status) =>
      store.SetRouteEntryStatus(f.entry.id, status);
    case Ignore =>
  }

  /** Cooldown in seconds when the upstream gives no hint: a positive setting, else 60. */
  function RateLimitCooldownSecs(setting: Option<int>): (secs: int)
    ensures secs > 0
    ensures secs == 60 || Some(secs) == setting
    ensures setting.Some? && setting.value > 0 ==> Some(secs) == setting
  {
    if setting.Some? && setting.value > 0 then setting.value else 60
  }

  /** Until when a failure handled at `now` parks its entry. */
  function ParkedUntil(setting: Option<int>, f: Failure, now: int): int {
    var secs := f.retryAfter.UnwrapOr(RateLimitCooldownSecs(setting));
    var until := now + (if secs < 0 then 0 else secs) * 1000;
    if until < 0 then 0 else until
  }

  /** What the buffered path does with one failure handled at `now`. */
  function Settled(imageRejection: string -> bool, setting: Option<int>, es: Entries, f: Failure, now: int): Entries {
    var applied := Applied(imageRejection, es, f);
    if f.status == Some(429) then WithCooldown(applied, f.entry.id, ParkedUntil(setting, f, now)) else applied
  }

  /** All failures of a request, settled in order; `clock[i]` is the time when failure `i` is handled. */
  function SettledAll(imageRejection: string -> bool, setting: Option<int>,
                      es: Entries, fs: seq<Failure>, clock: seq<int>): Entries
    requires |clock| == |fs|
  {
    if fs == [] then es
    else
      var k := |fs| - 1;
      Settled(imageRejection, setting, SettledAll(imageRejection, setting, es, fs[..k], clock[..k]), fs[k], clock[k])
  }

  /** The streaming path acts on each failure as it happens and sets no cooldown. */
  function AppliedAll(imageRejection: string -> bool, es: Entries, fs: seq<Failure>): Entries {
    if fs == [] then es
    else Applied(imageRejection, AppliedAll(imageRejection, es, fs[..|fs| - 1]), fs[|fs| - 1])
  }

  // ---------------------------------------------------------------- what a list of failures does to one entry

  predicate Demotes(imageRejection: string -> bool, f: Failure, id: int) {
    f.entry.id == id && ActionOf(imageRejection, f).Demote?
  }

  predicate Blinds(imageRejection: string -> bool, f: Failure, id: int) {
    f.entry.id == id && ActionOf(imageRejection, f).ClearVision? && f.entry.capabilities.vision
  }

  predicate Parks(f: Failure, id: int) {
    f.entry.id == id && f.status == Some(429)
  }

  /** Failure `i` is the last one that demotes entry `id`. */
  predicate LastDemotion(imageRejection: string -> bool, fs: seq<Failure>, id: int, i: int) {
    && 0 <= i < |fs| && Demotes(imageRejection, fs[i], id)
    && forall j | i < j < |fs| :: !Demotes(imageRejection, fs[j], id)
  }

  /** Failure `i` is the last rate-limit refusal of entry `id`. */
  predicate LastParking(fs: seq<Failure>, id: int, i: int) {
    && 0 <= i < |fs| && Parks(fs[i], id)
    && forall j | i < j < |fs| :: !Parks(fs[j], id)
  }

  /** Status after a list of failures, without a fold: the last demotion decides. */
  ghost predicate StatusAfter(imageRejection: string -> bool, fs: seq<Failure>, id: int, before: ModelStatus,
                              after: ModelStatus) {
    && ((forall i | 0 <= i < |fs| :: !Demotes(imageRejection, fs[i], id)) ==> after == before)
    && (forall i | LastDemotion(imageRejection, fs, id, i) :: after == ActionOf(imageRejection, fs[i]).status)
  }

  /** Vision after a list of failures: lost as soon as one of them refused images. */
  ghost predicate VisionAfter(imageRejection: string -> bool, fs: seq<Failure>, id: int, before: bool, after: bool) {
    after <==> before && forall i | 0 <= i < |fs| :: !Blinds(imageRejection, fs[i], id)
  }

  /** Cooldown after a list of failures handled at `clock`: the last rate-limit refusal decides. */
  ghost predicate CooldownAfter(setting: Option<int>, fs: seq<Failure>, clock: seq<int>, id: int, before: int,
                                after: int)
    requires |clock| == |fs|
  {
    && ((forall i | 0 <= i < |fs| :: !Parks(fs[i], id)) ==> after == before)
    && (forall i | LastParking(fs, id, i) :: after == ParkedUntil(setting, fs[i], clock[i]))
  }

  /** Only status, vision and cooldown of an entry ever move. */
  ghost predicate SameRow(before: RouteEntry, after: RouteEntry) {
    after == before.(status := after.status,
                     capabilities := before.capabilities.(vision := after.capabilities.vision),
                     cooldownUntil := after.cooldownUntil)
  }

  /** The store's rows are keyed by their own id. */
  predicate Keyed(es: Entries) {
    forall id | id in es :: es[id].id == id
  }

  lemma StatusSnoc(imageRejection: string -> bool, fs: seq<Failure>, id: int,
                   before: ModelStatus, mid: ModelStatus, after: ModelStatus)
    requires fs != [] && StatusAfter(imageRejection, fs[..|fs| - 1], id, before, mid)
    requires var f := fs[|fs| - 1];
             after == if Demotes(imageRejection, f, id) then ActionOf(imageRejection, f).status else mid
    ensures StatusAfter(imageRejection, fs, id, before, after)
  {
    var k := |fs| - 1;
    assert forall i | 0 <= i < k :: fs[..k][i] == fs[i];
    forall i | LastDemotion(imageRejection, fs, id, i)
      ensures after == ActionOf(imageRejection, fs[i]).status
    {
      if i < k {
        assert LastDemotion(imageRejection, fs[..k], id, i);
      }
    }
  }

  lemma VisionSnoc(imageRejection: string -> bool, fs: seq<Failure>, id: int, before: bool, mid: bool, after: bool)
    requires fs != [] && VisionAfter(imageRejection, fs[..|fs| - 1], id, before, mid)
    requires after <==> mid && !Blinds(imageRejection, fs[|fs| - 1], id)
    ensures VisionAfter(imageRejection, fs, id, before, after)
  {
    var k := |fs| - 1;
    assert forall i | 0 <= i < k :: fs[..k][i] == fs[i];
  }

  lemma CooldownSnoc(setting: Option<int>, fs: seq<Failure>, clock: seq<int>, id: int, before: int, mid: int,
                     after: int)
    requires fs != [] && |clock| == |fs|
    requires CooldownAfter(setting, fs[..|fs| - 1], clock[..|fs| - 1], id, before, mid)
    requires var k := |fs| - 1;
             after == if Parks(fs[k], id) then ParkedUntil(setting, fs[k], clock[k]) else mid
    ensures CooldownAfter(setting, fs, clock, id, before, after)
  {
    var k := |fs| - 1;
    assert forall i | 0 <= i < k :: fs[..k][i] == fs[i] && clock[..k][i] == clock[i];
    forall i | LastParking(fs, id, i)
      ensures after == ParkedUntil(setting, fs[i], clock[i])
    {
      if i < k {
        assert LastParking(fs[..k], id, i);
      }
    }
  }

  /** One failure, seen from one entry. */
  lemma AppliedEffect(imageRejection: string -> bool, es: Entries, f: Failure, id: int)
    requires Keyed(es)
    ensures var after := Applied(imageRejection, es, f);
            && after.Keys == es.Keys && Keyed(after)
            && (id in es ==>
                && SameRow(es[id], after[id])
                && after[id].status
                     == (if Demotes(imageRejection, f, id) then ActionOf(imageRejection, f).status else es[id].status)
                && (after[id].capabilities.vision <==> es[id].capabilities.vision && !Blinds(imageRejection, f, id))
                && after[id].cooldownUntil == es[id].cooldownUntil)
  {
  }

  lemma {:induction false} AppliedAllEffect(imageRejection: string -> bool, es: Entries, fs: seq<Failure>, id: int)
    requires Keyed(es)
    ensures var after := AppliedAll(imageRejection, es, fs);
            && after.Keys == es.Keys && Keyed(after)
            && (id in es ==>
                && SameRow(es[id], after[id])
                && StatusAfter(imageRejection, fs, id, es[id].status, after[id].status)
                && VisionAfter(imageRejection, fs, id, es[id].capabilities.vision, after[id].capabilities.vision)
                && after[id].cooldownUntil == es[id].cooldownUntil)
  {
    if fs != [] {
      var k := |fs| - 1;
      var mid := AppliedAll(imageRejection, es, fs[..k]);
      AppliedAllEffect(imageRejection, es, fs[..k], id);
      AppliedEffect(imageRejection, mid, fs[k], id);
      if id in es {
        var after := Applied(imageRejection, mid, fs[k])[id];
        StatusSnoc(imageRejection, fs, id, es[id].status, mid[id].status, after.status);
        VisionSnoc(imageRejection, fs, id, es[id].capabilities.vision, mid[id].capabilities.vision,
            after.capabilities.vision);
      }
    }
  }

  lemma SettledEffect(imageRejection: string -> bool, setting: Option<int>, es: Entries, f: Failure, now: int, id: int)
    requires Keyed(es)
    ensures var after := Settled(imageRejection, setting, es, f, now);
            && after.Keys == es.Keys && Keyed(after)
            && (id in es ==>
                && SameRow(es[id], after[id])
                && after[id].status
                     == (if Demotes(imageRejection, f, id) then ActionOf(imageRejection, f).status else es[id].status)
                && (after[id].capabilities.vision <==> es[id].capabilities.vision && !Blinds(imageRejection, f, id))
                && after[id].cooldownUntil
                     == if Parks(f, id) then ParkedUntil(setting, f, now) else es[id].cooldownUntil)
  {
    AppliedEffect(imageRejection, es, f, id);
  }

  /**
   * Every entry after a fully failed buffered request: status, vision and cooldown are each decided by the failures
   * in order, also when an entry occurs twice; only a 429 moves the cooldown.
   */
  lemma {:induction false} SettledAllEffect(imageRejection: string -> bool, setting: Option<int>,
                                            es: Entries, fs: seq<Failure>, clock: seq<int>, id: int)
    requires Keyed(es) && |clock| == |fs|
    ensures var after := SettledAll(imageRejection, setting, es, fs, clock);
            && after.Keys == es.Keys && Keyed(after)
            && (id in es ==>
                && SameRow(es[id], after[id])
                && StatusAfter(imageRejection, fs, id, es[id].status, after[id].status)
                && VisionAfter(imageRejection, fs, id, es[id].capabilities.vision, after[id].capabilities.vision)
                && CooldownAfter(setting, fs, clock, id, es[id].cooldownUntil, after[id].cooldownUntil))
  {
    if fs != [] {
      var k := |fs| - 1;
      var mid := SettledAll(imageRejection, setting, es, fs[..k], clock[..k]);
      SettledAllEffect(imageRejection, setting, es, fs[..k], clock[..k], id);
      SettledEffect(imageRejection, setting, mid, fs[k], clock[k], id);
      if id in es {
        var after := Settled(imageRejection, setting, mid, fs[k], clock[k])[id];
        StatusSnoc(imageRejection, fs, id, es[id].status, mid[id].status, after.status);
        VisionSnoc(imageRejection, fs, id, es[id].capabilities.vision, mid[id].capabilities.vision,
            after.capabilities.vision);
        CooldownSnoc(setting, fs, clock, id, es[id].cooldownUntil, mid[id].cooldownUntil, after.cooldownUntil);
      }
    }
  }

  // ---------------------------------------------------------------- what makes an entry Unhealthy

  /** A failure that makes entry `id` Unhealthy: no marker, and no refusal of the request. */
  predicate Sickens(f: Failure, id: int) {
    f.entry.id == id && !Marked(f.message) && !Refusing(f.status)
  }

  /** A rate limit that makes entry `id` Degraded. */
  predicate Limits(f: Failure, id: int) {
    f.entry.id == id && !Marked(f.message) && f.status == Some(429)
  }

  lemma DemotesBy(imageRejection: string -> bool, f: Failure, id: int)
    ensures Demotes(imageRejection, f, id) <==> Sickens(f, id) || Limits(f, id)
    ensures Sickens(f, id) ==> ActionOf(imageRejection, f) == Demote(Unhealthy) && !Limits(f, id)
    ensures Limits(f, id) ==> ActionOf(imageRejection, f) == Demote(Degraded)
  {
    hide Contains;
  }

  lemma {:induction false} LastDemoting(imageRejection: string -> bool, fs: seq<Failure>, id: int, i: nat)
    returns (j: nat)
    requires i < |fs| && Demotes(imageRejection, fs[i], id)
    ensures i <= j && LastDemotion(imageRejection, fs, id, j)
    decreases |fs| - i
  {
    hide Demotes;
    if k :| i < k < |fs| && Demotes(imageRejection, fs[k], id) {
      j := LastDemoting(imageRejection, fs, id, k);
    } else {
      j := i;
    }
  }

  /**
   * The last failure that sickens the entry is not followed by one that rate-limits it; or it was sick and stayed so.
   */
  ghost predicate EndsSick(fs: seq<Failure>, id: int, before: ModelStatus) {
    || (exists i | 0 <= i < |fs| :: Sickens(fs[i], id) && forall j | i < j < |fs| :: !Limits(fs[j], id))
    || (before.Unhealthy? && forall j | 0 <= j < |fs| :: !Limits(fs[j], id))
  }

  lemma UnhealthyAfter(imageRejection: string -> bool, fs: seq<Failure>, id: int, before: ModelStatus,
                       after: ModelStatus)
    requires StatusAfter(imageRejection, fs, id, before, after)
    ensures after.Unhealthy? <==> EndsSick(fs, id, before)
  {
    hide Sickens, Limits, Demotes, ActionOf;
    forall i | 0 <= i < |fs|
      ensures Demotes(imageRejection, fs[i], id) <==> Sickens(fs[i], id) || Limits(fs[i], id)
      ensures !(Sickens(fs[i], id) && Limits(fs[i], id))
    {
      DemotesBy(imageRejection, fs[i], id);
    }
    if i :| 0 <= i < |fs| && Demotes(imageRejection, fs[i], id) {
      var last := LastDemoting(imageRejection, fs, id, i);
      DemotesBy(imageRejection, fs[last], id);
    }
  }

  /**
   * After any failures, streaming or buffered, an entry is Unhealthy exactly when a failure without a marker whose
   * status is not in 400..499 hit it and no unmarked 429 hit it later (or it was Unhealthy and no unmarked 429 hit
   * it). In particular no failure with a status in 400..499 ever makes it so; what the message refuses plays no part.
   */
  lemma MadeUnhealthyIff(imageRejection: string -> bool, setting: Option<int>, es: Entries, fs: seq<Failure>,
                         clock: seq<int>, id: int)
    requires Keyed(es) && id in es && |clock| == |fs|
    ensures id in AppliedAll(imageRejection, es, fs) && id in SettledAll(imageRejection, setting, es, fs, clock)
    ensures AppliedAll(imageRejection, es, fs)[id].status.Unhealthy? <==> EndsSick(fs, id, es[id].status)
    ensures SettledAll(imageRejection, setting, es, fs, clock)[id].status.Unhealthy?
        <==> EndsSick(fs, id, es[id].status)
  {
    hide AppliedAll, SettledAll, StatusAfter, VisionAfter, CooldownAfter, EndsSick;
    AppliedAllEffect(imageRejection, es, fs, id);
    SettledAllEffect(imageRejection, setting, es, fs, clock, id);
    UnhealthyAfter(imageRejection, fs, id, es[id].status, AppliedAll(imageRejection, es, fs)[id].status);
    UnhealthyAfter(imageRejection, fs, id, es[id].status, SettledAll(imageRejection, setting, es, fs,
        clock)[id].status);
  }

  /**
   * A buffered 429 always parks its entry, and leaves everything else of it alone exactly when its message has a marker
   * or the entry is Degraded already.
   */
  lemma OnlyParksIff(imageRejection: string -> bool, setting: Option<int>, es: Entries, f: Failure, now: int)
    requires f.entry.id in es && f.status == Some(429)
    ensures var before, after := es[f.entry.id], Settled(imageRejection, setting, es, f, now)[f.entry.id];
            && after.cooldownUntil == ParkedUntil(setting, f, now)
            && (after == before.(cooldownUntil := after.cooldownUntil)
                <==> Marked(f.message) || before.status.Degraded?)
            && (!Marked(f.message) ==> after.status == Degraded)
  {
    hide Contains;
  }

  const IMAGE_REFUSAL := "image input not supported"

  /** The failures by which an image refusal is taken for one: unmarked, and with a refusing status other than 429. */
  predicate TakenAsRefusal(f: Failure) {
    !Marked(f.message) && Refusing(f.status) && f.status != Some(429)
  }

  /** Vision is cleared exactly for messages that refuse images in such a failure. */
  lemma ClearsVisionIff(imageRejection: string -> bool, f: Failure)
    ensures ActionOf(imageRejection, f) == ClearVision <==> imageRejection(f.message) && TakenAsRefusal(f)
  {
    hide Contains;
  }

  /**
   * An image refusal against an entry with vision costs it its vision and nothing else, as promised for both surfaces,
   * if and only if its failure is taken as a refusal.
   */
  lemma RefusalOnlyBlindsIff(imageRejection: string -> bool, es: Entries, f: Failure)
    requires f.entry.id in es && es[f.entry.id].capabilities.vision && f.entry.capabilities.vision
    requires imageRejection(f.message)
    ensures Applied(imageRejection, es, f) == WithVision(es, f.entry.id, false) <==> TakenAsRefusal(f)
  {
    hide ActionOf, TakenAsRefusal;
    ClearsVisionIff(imageRejection, f);
    assert WithVision(es, f.entry.id, false)[f.entry.id].capabilities.vision == false;
  }

  /** An image refusal with status 400 costs a healthy entry its vision and nothing else. */
  lemma ImageRefusalKeepsHealth(imageRejection: string -> bool, es: Entries, e: RouteEntry)
    requires e.id in es && es[e.id] == e && e.status.Healthy? && e.capabilities.vision
    requires imageRejection(IMAGE_REFUSAL)
    ensures Applied(imageRejection, es, Failure(e, Some(400), IMAGE_REFUSAL, None))[e.id]
         == e.(capabilities := e.capabilities.(vision := false))
  {
    assert 'A' !in IMAGE_REFUSAL && 'c' !in IMAGE_REFUSAL;
    Unmarked(IMAGE_REFUSAL);
  }

  /** The same refusal with status 429 makes the entry Degraded and leaves it its vision. */
  lemma LimitedRefusalDegrades(imageRejection: string -> bool, es: Entries, e: RouteEntry)
    requires e.id in es && es[e.id] == e
    requires imageRejection(IMAGE_REFUSAL)
    ensures Applied(imageRejection, es, Failure(e, Some(429), IMAGE_REFUSAL, None))[e.id] == e.(status := Degraded)
  {
    assert 'A' !in IMAGE_REFUSAL && 'c' !in IMAGE_REFUSAL;
    Unmarked(IMAGE_REFUSAL);
  }

  const SLOW_DOWN := "slow down"

  /** A plain 429 of a healthy entry makes it Degraded and, for a buffered request, parks it for the fallback minute. */
  lemma RateLimitDegrades(imageRejection: string -> bool, es: Entries, e: RouteEntry, now: nat)
    requires e.id in es && es[e.id] == e && e.status.Healthy?
    ensures Settled(imageRejection, None, es, Failure(e, Some(429), SLOW_DOWN, None), now)[e.id]
         == e.(status := Degraded, cooldownUntil := now + 60_000)
    ensures Applied(imageRejection, es, Failure(e, Some(429), SLOW_DOWN, None))[e.id] == e.(status := Degraded)
  {
    assert 'A' !in SLOW_DOWN && 'c' !in SLOW_DOWN;
    Unmarked(SLOW_DOWN);
  }

  /** The same with a marker parks it and leaves it Healthy. */
  lemma MarkedLimitOnlyParks(imageRejection: string -> bool, es: Entries, e: RouteEntry, now: nat)
    requires e.id in es && es[e.id] == e && e.status.Healthy?
    ensures Settled(imageRejection, None, es, Failure(e, Some(429), MASK_SKIP, None), now)[e.id]
         == e.(cooldownUntil := now + 60_000)
  {
    assert Contains(MASK_SKIP, MASK_SKIP);
  }

  /** Every marker has one of these letters. */
  lemma Unmarked(message: string)
    requires 'A' !in message && 'c' !in message
    ensures !Marked(message)
  {
    assert 'A' == MASK_SKIP[0] && 'A' == MASK_FAILED[0] && 'c' == ADAPTER_CAPABILITY_SKIP[8];
    if Contains(message, MASK_SKIP) {
      ContainsChars(message, MASK_SKIP);
    }
    if Contains(message, MASK_FAILED) {
      ContainsChars(message, MASK_FAILED);
    }
    if Contains(message, ADAPTER_CAPABILITY_SKIP) {
      ContainsChars(message, ADAPTER_CAPABILITY_SKIP);
    }
  }

  // ---------------------------------------------------------------- markers

  predicate StandsAt(text: string, needle: string, i: nat) {
    i + |needle| <= |text| && text[i..i + |needle|] == needle
  }

  /** Whether `needle` stands somewhere in `text`. */
  predicate Occurs(text: string, needle: string) {
    exists i | 0 <= i <= |text| :: StandsAt(text, needle, i)
  }

  lemma {:induction false} ContainsIff(text: string, needle: string)
    ensures Contains(text, needle) <==> Occurs(text, needle)
  {
    if needle <= text {
      assert StandsAt(text, needle, 0);
    } else if text != "" {
      ContainsIff(text[1..], needle);
      OccursLater(text, needle);
    }
  }

  lemma StandsLater(text: string, needle: string, i: nat)
    requires text != ""
    ensures StandsAt(text[1..], needle, i) <==> StandsAt(text, needle, i + 1)
  {
    if i + 1 + |needle| <= |text| {
      assert text[1..][i..i + |needle|] == text[i + 1..i + 1 + |needle|];
    }
  }

  lemma OccursLater(text: string, needle: string)
    requires text != "" && !(needle <= text)
    ensures Occurs(text, needle) <==> Occurs(text[1..], needle)
  {
    assert !StandsAt(text, needle, 0);
    forall i: nat
      ensures StandsAt(text[1..], needle, i) <==> StandsAt(text, needle, i + 1)
    {
      StandsLater(text, needle, i);
    }
    hide StandsAt;
    if Occurs(text, needle) {
      var i: nat :| i <= |text| && StandsAt(text, needle, i);
      assert StandsAt(text[1..], needle, i - 1);
    }
  }

  /** A message is marked exactly when one of the three markers stands in it. */
  lemma MarkedIff(message: string)
    ensures Marked(message) <==> || Occurs(message, "AGOS_MASK_SKIP")
                                 || Occurs(message, "AGOS_MASK_FAILED")
                                 || Occurs(message, "adapter capability skip")
  {
    hide Occurs, Contains;
    ContainsIff(message, "AGOS_MASK_SKIP");
    ContainsIff(message, "AGOS_MASK_FAILED");
    ContainsIff(message, "adapter capability skip");
  }
}
