/** The login session service: the session state mirrored from systemd-logind,
  * when a new state is worth announcing, the fallback delay before a
  * suspend, the subscriber set, the sleep inhibitor and the sleep-cycle
  * bookkeeping driven by logind's D-Bus signals. D-Bus calls become the
  * outcomes passed in; goroutines and timers become the methods they would
  * run. */
module Loginctl {
  import opened Common

  /** The session as published. Go's unsigned integers are naturals here. */
  datatype SessionState = SessionState(
    SessionID: string, SessionPath: string, Locked: bool, Active: bool, IdleHint: bool,
    IdleSinceHint: nat, LockedHint: bool, SessionType: string, SessionClass: string, User: nat,
    UserName: string, RemoteHost: string, Service: string, TTY: string, Display: string,
    Remote: bool, Seat: string, VTNr: nat, PreparingForSleep: bool)

  /** The D-Bus values the handlers look at. */
  datatype Variant =
    | VBool(b: bool)
    | VString(s: string)
    | VUint32(u32: nat)
    | VUint64(u64: nat)
    | VArray(items: seq<Variant>)
    | VMap(entries: map<string, Variant>)
    | VOther

  const Dest: string := "org.freedesktop.login1"
  const SessionInterface: string := "org.freedesktop.login1.Session"
  const ManagerInterface: string := "org.freedesktop.login1.Manager"
  const PropsInterface: string := "org.freedesktop.DBus.Properties"

  /** The five fields whose change is announced. */
  function Meaningful(s: SessionState): (bool, bool, bool, bool, bool)
  {
    (s.Locked, s.LockedHint, s.Active, s.IdleHint, s.PreparingForSleep)
  }

  /** `stateChangedMeaningfully`: a change in the lock, lock hint, activity,
    * idle hint or sleep preparation; nothing else counts. */
  function StateChangedMeaningfully(prev: SessionState, next: SessionState): (changed: bool)
    ensures changed <==> Meaningful(prev) != Meaningful(next)
  {
    if prev.Locked != next.Locked then true
    else if prev.LockedHint != next.LockedHint then true
    else if prev.Active != next.Active then true
    else if prev.IdleHint != next.IdleHint then true
    else if prev.PreparingForSleep != next.PreparingForSleep then true
    else false
  }

  /** The cases of the tests: a new user name or session path alone is not
    * announced; any one of the five fields is. */
  lemma MeaningfulExamples(s: SessionState, name: string, path: string)
    ensures !StateChangedMeaningfully(s, s.(UserName := name, SessionPath := path))
    ensures StateChangedMeaningfully(s, s.(Locked := !s.Locked))
    ensures StateChangedMeaningfully(s, s.(LockedHint := !s.LockedHint))
    ensures StateChangedMeaningfully(s, s.(Active := !s.Active))
    ensures StateChangedMeaningfully(s, s.(IdleHint := !s.IdleHint))
    ensures StateChangedMeaningfully(s, s.(PreparingForSleep := !s.PreparingForSleep))
  {
  }

  const Second: int := 1_000_000_000

  /** `initializeFallbackDelay`, in nanoseconds: 80% of logind's maximum
    * inhibitor delay (read in microseconds, the arithmetic in Go's int64
    * `time.Duration`), kept within 2 s to 4 s; 2 s when the read fails. */
  function FallbackDelay(maxDelayUSec: Result<int>): (d: int)
    requires maxDelayUSec.Ok? ==> 0 <= maxDelayUSec.value < 0x1_0000_0000_0000_0000
    ensures 2 * Second <= d <= 4 * Second
    ensures maxDelayUSec.Err? ==> d == 2 * Second
    ensures maxDelayUSec.Ok? && maxDelayUSec.value * 8000 <= INT64_MAX ==>
              var eighty := maxDelayUSec.value * 800;
              (2 * Second <= eighty <= 4 * Second ==> d == eighty)
              && (eighty < 2 * Second ==> d == 2 * Second)
              && (eighty > 4 * Second ==> d == 4 * Second)
  {
    if maxDelayUSec.Err? then 2 * Second
    else
      var usec := maxDelayUSec.value;
      var maxDelay := ToInt64(ToInt64(usec) * 1000);
      var computed := GoDiv(ToInt64(maxDelay * 8), 10);
      if usec * 8000 <= INT64_MAX then
        assert maxDelay == usec * 1000;
        assert ToInt64(maxDelay * 8) == (usec * 800) * 10;
        assert computed == usec * 800;
        Clamp(computed)
      else Clamp(computed)
  }

  function Clamp(computed: int): int
  {
    if computed < 2 * Second then 2 * Second
    else if computed > 4 * Second then 4 * Second
    else computed
  }

  /** logind's usual 5-second maximum gives 4 s; 3 s gives 2.4 s. */
  lemma FallbackDelayExamples()
    ensures FallbackDelay(Ok(5_000_000)) == 4 * Second
    ensures FallbackDelay(Ok(3_000_000)) == 2_400_000_000
    ensures FallbackDelay(Ok(0)) == 2 * Second
  {
  }

  /** The boolean a property map holds under a key, or the default. */
  function BoolOr(props: map<string, Variant>, key: string, dflt: bool): bool
  {
    if key in props && props[key].VBool? then props[key].b else dflt
  }

  /** The string a property map holds under a key, or the default. */
  function StringOr(props: map<string, Variant>, key: string, dflt: string): string
  {
    if key in props && props[key].VString? then props[key].s else dflt
  }

  /** What one changed property does to the session: the three booleans and
    * the idle timestamp are taken when their type is right, a lock hint
    * sets the lock too, and every other key is ignored. */
  function ApplyProperty(s: SessionState, key: string, v: Variant): (t: SessionState)
    ensures key !in {"Active", "IdleHint", "IdleSinceHint", "LockedHint"} ==> t == s
    ensures key == "LockedHint" && v.VBool? ==> t == s.(LockedHint := v.b, Locked := v.b)
  {
    if key == "Active" && v.VBool? then s.(Active := v.b)
    else if key == "IdleHint" && v.VBool? then s.(IdleHint := v.b)
    else if key == "IdleSinceHint" && v.VUint64? then s.(IdleSinceHint := v.u64)
    else if key == "LockedHint" && v.VBool? then s.(LockedHint := v.b, Locked := v.b)
    else s
  }

  /** The 64-bit unsigned integer a property map holds under a key, or the
    * default. */
  function U64Or(props: map<string, Variant>, key: string, dflt: nat): nat
  {
    if key in props && props[key].VUint64? then props[key].u64 else dflt
  }

  /** Whether a changed property is one the handler takes. */
  predicate Takes(key: string, v: Variant)
  {
    ((key == "Active" || key == "IdleHint" || key == "LockedHint") && v.VBool?)
    || (key == "IdleSinceHint" && v.VUint64?)
  }

  /** The session after a whole map of changed properties, whatever order
    * the map is visited in. */
  function ApplyChanges(s: SessionState, changes: map<string, Variant>): SessionState
  {
    var (active, idle, idleSince, lockedHint, locked) := Handled(s, changes);
    WithHandled(s, active, idle, idleSince, lockedHint, locked)
  }

  /** The session with the five fields the change handler sets replaced. */
  function WithHandled(s: SessionState, active: bool, idle: bool, idleSince: nat, lockedHint: bool, locked: bool)
    : SessionState
  {
    s.(Active := active, IdleHint := idle, IdleSinceHint := idleSince, LockedHint := lockedHint, Locked := locked)
  }

  /** Changes touch only the five fields the handler reads, and leave the
    * lock either as it was or equal to the lock hint. */
  lemma ApplyChangesFrame(s: SessionState, changes: map<string, Variant>)
    ensures var t := ApplyChanges(s, changes);
            t.(Active := s.Active, IdleHint := s.IdleHint, IdleSinceHint := s.IdleSinceHint,
               LockedHint := s.LockedHint, Locked := s.Locked) == s
            && (t.Locked == t.LockedHint || t.Locked == s.Locked)
  {
  }

  /** Adding one more key to the changes applied is applying that key last:
    * the order in which the handler visits the map does not matter. */
  lemma ApplyChangesStep(s: SessionState, changes: map<string, Variant>, key: string, v: Variant)
    requires key !in changes
    ensures ApplyChanges(s, changes[key := v]) == ApplyProperty(ApplyChanges(s, changes), key, v)
  {
    if Takes(key, v) {
      TakenStep(s, changes, key, v);
    } else {
      IgnoredStep(s, changes, key, v);
    }
  }

  lemma TakenStep(s: SessionState, changes: map<string, Variant>, key: string, v: Variant)
    requires key !in changes && Takes(key, v)
    ensures ApplyChanges(s, changes[key := v]) == ApplyProperty(ApplyChanges(s, changes), key, v)
  {
    var before := ApplyChanges(s, changes);
    if key == "Active" {
      TakenActive(s, changes, v);
    } else if key == "IdleHint" {
      TakenIdleHint(s, changes, v);
    } else if key == "IdleSinceHint" {
      TakenIdleSince(s, changes, v);
    } else {
      TakenLockedHint(s, changes, v);
    }
  }

  lemma TakenActive(s: SessionState, changes: map<string, Variant>, v: Variant)
    requires "Active" !in changes && v.VBool?
    ensures ApplyChanges(s, changes["Active" := v]) == ApplyChanges(s, changes).(Active := v.b)
  {
    var (a, i, n, h, l) := Handled(s, changes);
    assert Handled(s, changes["Active" := v]) == (v.b, i, n, h, l) by {
      BoolOrUpdate(changes, "Active", v, "Active", s.Active);
      BoolOrUpdate(changes, "Active", v, "IdleHint", s.IdleHint);
      BoolOrUpdate(changes, "Active", v, "LockedHint", s.LockedHint);
      BoolOrUpdate(changes, "Active", v, "LockedHint", s.Locked);
      U64OrUpdate(changes, "Active", v, s.IdleSinceHint);
    }
    HandledUpdate(s, a, i, n, h, l, v.b, i, n, h, l);
  }

  lemma TakenIdleHint(s: SessionState, changes: map<string, Variant>, v: Variant)
    requires "IdleHint" !in changes && v.VBool?
    ensures ApplyChanges(s, changes["IdleHint" := v]) == ApplyChanges(s, changes).(IdleHint := v.b)
  {
    var (a, i, n, h, l) := Handled(s, changes);
    assert Handled(s, changes["IdleHint" := v]) == (a, v.b, n, h, l) by {
      BoolOrUpdate(changes, "IdleHint", v, "Active", s.Active);
      BoolOrUpdate(changes, "IdleHint", v, "IdleHint", s.IdleHint);
      BoolOrUpdate(changes, "IdleHint", v, "LockedHint", s.LockedHint);
      BoolOrUpdate(changes, "IdleHint", v, "LockedHint", s.Locked);
      U64OrUpdate(changes, "IdleHint", v, s.IdleSinceHint);
    }
    HandledUpdate(s, a, i, n, h, l, a, v.b, n, h, l);
  }

  lemma TakenIdleSince(s: SessionState, changes: map<string, Variant>, v: Variant)
    requires "IdleSinceHint" !in changes && v.VUint64?
    ensures ApplyChanges(s, changes["IdleSinceHint" := v]) == ApplyChanges(s, changes).(IdleSinceHint := v.u64)
  {
    var (a, i, n, h, l) := Handled(s, changes);
    assert Handled(s, changes["IdleSinceHint" := v]) == (a, i, v.u64, h, l) by {
      BoolOrUpdate(changes, "IdleSinceHint", v, "Active", s.Active);
      BoolOrUpdate(changes, "IdleSinceHint", v, "IdleHint", s.IdleHint);
      BoolOrUpdate(changes, "IdleSinceHint", v, "LockedHint", s.LockedHint);
      BoolOrUpdate(changes, "IdleSinceHint", v, "LockedHint", s.Locked);
      U64OrUpdate(changes, "IdleSinceHint", v, s.IdleSinceHint);
    }
    HandledUpdate(s, a, i, n, h, l, a, i, v.u64, h, l);
  }

  lemma TakenLockedHint(s: SessionState, changes: map<string, Variant>, v: Variant)
    requires "LockedHint" !in changes && v.VBool?
    ensures ApplyChanges(s, changes["LockedHint" := v]) == ApplyChanges(s, changes).(LockedHint := v.b, Locked := v.b)
  {
    var (a, i, n, h, l) := Handled(s, changes);
    assert Handled(s, changes["LockedHint" := v]) == (a, i, n, v.b, v.b) by {
      BoolOrUpdate(changes, "LockedHint", v, "Active", s.Active);
      BoolOrUpdate(changes, "LockedHint", v, "IdleHint", s.IdleHint);
      BoolOrUpdate(changes, "LockedHint", v, "LockedHint", s.LockedHint);
      BoolOrUpdate(changes, "LockedHint", v, "LockedHint", s.Locked);
      U64OrUpdate(changes, "LockedHint", v, s.IdleSinceHint);
    }
    HandledUpdate(s, a, i, n, h, l, a, i, n, v.b, v.b);
  }

  /** The five values `ApplyChanges` puts into the session. */
  function Handled(s: SessionState, changes: map<string, Variant>): (bool, bool, nat, bool, bool)
  {
    (BoolOr(changes, "Active", s.Active), BoolOr(changes, "IdleHint", s.IdleHint),
     U64Or(changes, "IdleSinceHint", s.IdleSinceHint),
     BoolOr(changes, "LockedHint", s.LockedHint), BoolOr(changes, "LockedHint", s.Locked))
  }

  /** Replacing the handled fields twice is replacing them once. */
  lemma HandledUpdate(s: SessionState, a: bool, i: bool, n: nat, h: bool, l: bool,
                      a2: bool, i2: bool, n2: nat, h2: bool, l2: bool)
    ensures WithHandled(s, a2, i2, n2, h2, l2)
            == WithHandled(s, a, i, n, h, l).(Active := a2, IdleHint := i2, IdleSinceHint := n2, LockedHint := h2, Locked := l2)
  {
  }

  lemma IgnoredStep(s: SessionState, changes: map<string, Variant>, key: string, v: Variant)
    requires key !in changes && !Takes(key, v)
    ensures ApplyChanges(s, changes[key := v]) == ApplyProperty(ApplyChanges(s, changes), key, v)
  {
    assert Handled(s, changes[key := v]) == Handled(s, changes) by {
      BoolOrUpdate(changes, key, v, "Active", s.Active);
      BoolOrUpdate(changes, key, v, "IdleHint", s.IdleHint);
      BoolOrUpdate(changes, key, v, "LockedHint", s.LockedHint);
      BoolOrUpdate(changes, key, v, "LockedHint", s.Locked);
      U64OrUpdate(changes, key, v, s.IdleSinceHint);
    }
    assert ApplyProperty(ApplyChanges(s, changes), key, v) == ApplyChanges(s, changes);
  }

  /** A key added to a map changes the boolean read under it only if the
    * value added is a boolean. */
  lemma BoolOrUpdate(m: map<string, Variant>, key: string, v: Variant, k: string, dflt: bool)
    requires key !in m
    ensures BoolOr(m[key := v], k, dflt) == if k == key && v.VBool? then v.b else BoolOr(m, k, dflt)
  {
  }

  /** A key added to a map changes the idle timestamp read only if it is
    * that key with a 64-bit value. */
  lemma U64OrUpdate(m: map<string, Variant>, key: string, v: Variant, dflt: nat)
    requires key !in m
    ensures U64Or(m[key := v], "IdleSinceHint", dflt)
            == if key == "IdleSinceHint" && v.VUint64? then v.u64 else U64Or(m, "IdleSinceHint", dflt)
  {
  }

  /** The part of a map whose keys lie in a set. */
  function Restrict(m: map<string, Variant>, keys: set<string>): (r: map<string, Variant>)
    ensures r.Keys == m.Keys * keys
    ensures forall k :: k in r ==> r[k] == m[k]
  {
    map k | k in m && k in keys :: m[k]
  }

  /** The first element of a D-Bus array argument when it is a 32-bit
    * unsigned integer. */
  function FirstUint32(v: Variant, dflt: nat): nat
  {
    if v.VArray? && |v.items| >= 1 && v.items[0].VUint32? then v.items[0].u32 else dflt
  }

  function FirstString(v: Variant, dflt: string): string
  {
    if v.VArray? && |v.items| >= 1 && v.items[0].VString? then v.items[0].s else dflt
  }

  /** `updateSessionState`: every property of the session read back from
    * logind that has the expected type replaces its field; the lock hint
    * sets the lock too; the user and seat are the first element of their
    * structures. */
  function RefreshSession(s: SessionState, props: map<string, Variant>): (t: SessionState)
    ensures t.SessionID == s.SessionID && t.SessionPath == s.SessionPath
    ensures t.PreparingForSleep == s.PreparingForSleep
    ensures "LockedHint" in props && props["LockedHint"].VBool? ==>
              t.Locked == props["LockedHint"].b && t.LockedHint == props["LockedHint"].b
    ensures !("LockedHint" in props && props["LockedHint"].VBool?) ==>
              t.Locked == s.Locked && t.LockedHint == s.LockedHint
    ensures props == map[] ==> t == s
  {
    var v := ApplyChanges(s, props);
    v.(SessionType := StringOr(props, "Type", s.SessionType),
       SessionClass := StringOr(props, "Class", s.SessionClass),
       User := if "User" in props then FirstUint32(props["User"], s.User) else s.User,
       UserName := StringOr(props, "Name", s.UserName),
       RemoteHost := StringOr(props, "RemoteHost", s.RemoteHost),
       Service := StringOr(props, "Service", s.Service),
       TTY := StringOr(props, "TTY", s.TTY),
       Display := StringOr(props, "Display", s.Display),
       Remote := BoolOr(props, "Remote", s.Remote),
       Seat := if "Seat" in props then FirstString(props["Seat"], s.Seat) else s.Seat,
       VTNr := if "VTNr" in props && props["VTNr"].VUint32? then props["VTNr"].u32 else s.VTNr)
  }

  /** A change signal and a full refresh carrying the same values agree on
    * every field the signal handles, and so on whether the change is
    * announced. */
  lemma SignalAgreesWithRefresh(s: SessionState, props: map<string, Variant>)
    ensures Meaningful(ApplyChanges(s, props)) == Meaningful(RefreshSession(s, props))
    ensures ApplyChanges(s, props).IdleSinceHint == RefreshSession(s, props).IdleSinceHint
  {
  }

  /** `refreshSessionBinding` on the session state: without a manager
    * object, or when asking logind for the session's path fails or gives
    * the path already bound, nothing changes; otherwise the session is
    * bound to the new path and, when the properties can be read there,
    * refreshed from them. `lookup` is logind's answer to `GetSession`,
    * `props` the properties read at the new path. */
  function RebindSession(s: SessionState, managerAvailable: bool, lookup: Result<string>,
                         props: Result<map<string, Variant>>): (t: SessionState)
    ensures t.SessionID == s.SessionID && t.PreparingForSleep == s.PreparingForSleep
    ensures !managerAvailable || lookup.Err? || lookup.value == s.SessionPath ==> t == s
    ensures managerAvailable && lookup.Ok? ==> t.SessionPath == lookup.value
    ensures managerAvailable && lookup.Ok? && lookup.value != s.SessionPath && props.Ok?
            && "LockedHint" in props.value && props.value["LockedHint"].VBool? ==>
              t.Locked == props.value["LockedHint"].b && t.LockedHint == props.value["LockedHint"].b
    ensures props.Err? ==> t == s.(SessionPath := t.SessionPath)
  {
    if !managerAvailable || lookup.Err? || lookup.value == s.SessionPath then s
    else
      var bound := s.(SessionPath := lookup.value);
      if props.Ok? then RefreshSession(bound, props.value) else bound
  }

  /** Re-binding twice with the same answers from logind is re-binding
    * once: the second lookup finds the path already bound. */
  lemma RebindIdempotent(s: SessionState, managerAvailable: bool, lookup: Result<string>,
                         props: Result<map<string, Variant>>)
    ensures var t := RebindSession(s, managerAvailable, lookup, props);
            RebindSession(t, managerAvailable, lookup, props) == t
  {
  }

  /** The session manager's mutable state. `subscribers` holds the ids with
    * an open channel; `dirty` is the pending notification; the logind
    * connection is reduced to whether its manager object exists; the ready
    * channel of a sleep cycle is numbered, with `channelsMade` channels made
    * so far and `closedChannels` those closed; `lockTimer` is the cycle a
    * pending fallback timer belongs to; delays are in nanoseconds. */
  class Manager {
    var state: SessionState
    var subscribers: set<string>
    var dirty: bool
    var managerAvailable: bool
    var sleepInhibitorEnabled: bool
    var inhibitorHeld: bool
    var inSleepCycle: bool
    var sleepCycleID: bv64
    var lockerReadyCh: Option<nat>
    var channelsMade: nat
    var closedChannels: set<nat>
    var lockTimer: Option<bv64>
    var fallbackDelay: int
    var lockBeforeSuspend: bool
    var lockRequests: nat

    /** The ready channel, when there is one, has been made and not yet
      * closed. */
    predicate Valid()
      reads this`lockerReadyCh, this`channelsMade, this`closedChannels
    {
      (lockerReadyCh.Some? ==> lockerReadyCh.value < channelsMade && lockerReadyCh.value !in closedChannels)
      && forall c :: c in closedChannels ==> c < channelsMade
    }

    /** The state `NewManager` builds before talking to logind: the session id
      * from `XDG_SESSION_ID` (default "self"), no subscribers, the inhibitor
      * enabled but not held. */
    constructor (sessionIDEnv: string)
      ensures Valid()
      ensures state.SessionID == (if sessionIDEnv == "" then "self" else sessionIDEnv)
      ensures !state.Locked && !state.PreparingForSleep
      ensures subscribers == {} && !dirty && managerAvailable
      ensures sleepInhibitorEnabled && !inhibitorHeld && !inSleepCycle && sleepCycleID == 0
      ensures lockerReadyCh == None && channelsMade == 0 && closedChannels == {} && lockTimer == None
      ensures !lockBeforeSuspend && lockRequests == 0
    {
      var id := if sessionIDEnv == "" then "self" else sessionIDEnv;
      state := SessionState(id, "", false, false, false, 0, false, "", "", 0, "", "", "", "", "", false, "", 0, false);
      subscribers := {};
      dirty := false;
      managerAvailable := true;
      sleepInhibitorEnabled := true;
      inhibitorHeld := false;
      inSleepCycle := false;
      sleepCycleID := 0;
      lockerReadyCh := None;
      channelsMade := 0;
      closedChannels := {};
      lockTimer := None;
      fallbackDelay := 0;
      lockBeforeSuspend := false;
      lockRequests := 0;
    }

    /** `SetLockBeforeSuspend`: whether going to sleep asks logind to lock
      * the session first. */
    method SetLockBeforeSuspend(enabled: bool)
      modifies this`lockBeforeSuspend
      ensures lockBeforeSuspend == enabled
    {
      lockBeforeSuspend := enabled;
    }

    /** `Subscribe`: the id gets a (new) channel. */
    method Subscribe(id: string)
      modifies this`subscribers
      ensures subscribers == old(subscribers) + {id}
    {
      subscribers := subscribers + {id};
    }

    /** `Unsubscribe`: the id's channel is closed and forgotten; an unknown id
      * changes nothing. */
    method Unsubscribe(id: string)
      modifies this`subscribers
      ensures subscribers == old(subscribers) - {id}
      ensures id !in old(subscribers) ==> subscribers == old(subscribers)
    {
      if id in subscribers {
        subscribers := subscribers - {id};
      }
    }

    /** `notifySubscribers`: marks a notification pending. */
    method NotifySubscribers()
      modifies this`dirty
      ensures dirty
    {
      dirty := true;
    }

    /** `initializeFallbackDelay`, given the outcome of reading logind's
      * maximum inhibitor delay. */
    method InitializeFallbackDelay(maxDelayUSec: Result<int>)
      requires maxDelayUSec.Ok? ==> 0 <= maxDelayUSec.value < 0x1_0000_0000_0000_0000
      modifies this`fallbackDelay
      ensures fallbackDelay == FallbackDelay(maxDelayUSec)
      ensures 2 * Second <= fallbackDelay <= 4 * Second
    {
      fallbackDelay := FallbackDelay(maxDelayUSec);
    }

    /** `acquireSleepInhibitor`, given the error, if any, of logind's
      * `Inhibit` call. Nothing happens while disabled or already held;
      * without a manager object, or when the call fails, the error is
      * returned and nothing is held; otherwise the inhibitor is held. */
    method AcquireSleepInhibitor(inhibitErr: Option<string>) returns (err: Option<string>)
      modifies this`inhibitorHeld
      ensures !sleepInhibitorEnabled || old(inhibitorHeld) ==> err == None && inhibitorHeld == old(inhibitorHeld)
      ensures sleepInhibitorEnabled && !old(inhibitorHeld) && !managerAvailable ==>
                err == Some("manager object not available") && !inhibitorHeld
      ensures sleepInhibitorEnabled && !old(inhibitorHeld) && managerAvailable ==>
                err == inhibitErr && inhibitorHeld == inhibitErr.None?
      ensures inhibitorHeld <==> old(inhibitorHeld) || (sleepInhibitorEnabled && managerAvailable && inhibitErr.None?)
    {
      if !sleepInhibitorEnabled {
        return None;
      }
      if inhibitorHeld {
        return None;
      }
      if !managerAvailable {
        return Some("manager object not available");
      }
      if inhibitErr.Some? {
        return inhibitErr;
      }
      inhibitorHeld := true;
      return None;
    }

    /** `releaseSleepInhibitor`: whatever was held is closed. */
    method ReleaseSleepInhibitor()
      modifies this`inhibitorHeld
      ensures !inhibitorHeld
    {
      inhibitorHeld := false;
    }

    /** `releaseForCycle`: the inhibitor is released only while the sleep
      * cycle with this id is still the current one. */
    method ReleaseForCycle(id: bv64)
      modifies this`inhibitorHeld
      ensures inSleepCycle && sleepCycleID == id ==> !inhibitorHeld
      ensures !(inSleepCycle && sleepCycleID == id) ==> inhibitorHeld == old(inhibitorHeld)
    {
      if !inSleepCycle || sleepCycleID != id {
        return;
      }
      ReleaseSleepInhibitor();
    }

    /** `newLockerReadyCh`: a fresh ready channel replaces the current one. */
    method NewLockerReadyCh() returns (ch: nat)
      requires Valid()
      modifies this`lockerReadyCh, this`channelsMade
      ensures Valid()
      ensures ch == old(channelsMade) && lockerReadyCh == Some(ch) && channelsMade == old(channelsMade) + 1
    {
      ch := channelsMade;
      channelsMade := channelsMade + 1;
      lockerReadyCh := Some(ch);
    }

    /** `signalLockerReady`: the current ready channel, if any, is closed
      * (it was open, so no channel is closed twice) and forgotten. */
    method SignalLockerReady()
      requires Valid()
      modifies this`lockerReadyCh, this`closedChannels
      ensures Valid()
      ensures lockerReadyCh == None
      ensures old(lockerReadyCh).Some? ==>
                old(lockerReadyCh).value !in old(closedChannels)
                && closedChannels == old(closedChannels) + {old(lockerReadyCh).value}
      ensures old(lockerReadyCh).None? ==> closedChannels == old(closedChannels)
    {
      var ch := lockerReadyCh;
      if ch.Some? {
        closedChannels := closedChannels + {ch.value};
        lockerReadyCh := None;
      }
    }

    /** The `Lock` signal: the session is locked and its lock hint set, a
      * notification is pending, and during a sleep cycle with the inhibitor
      * in use a fallback timer for that cycle replaces any earlier one. */
    method OnLock()
      modifies this`state, this`dirty, this`lockTimer
      ensures state == old(state).(Locked := true, LockedHint := true) && dirty
      ensures sleepInhibitorEnabled && inSleepCycle ==> lockTimer == Some(sleepCycleID)
      ensures !(sleepInhibitorEnabled && inSleepCycle) ==> lockTimer == old(lockTimer)
    {
      state := state.(Locked := true, LockedHint := true);
      NotifySubscribers();
      if sleepInhibitorEnabled && inSleepCycle {
        lockTimer := Some(sleepCycleID);
      }
    }

    /** The fallback timer firing: the inhibitor of its cycle is released if
      * that cycle is still current. */
    method OnLockTimerFired()
      modifies this`inhibitorHeld
      ensures lockTimer.Some? && inSleepCycle && sleepCycleID == lockTimer.value ==> !inhibitorHeld
      ensures !(lockTimer.Some? && inSleepCycle && sleepCycleID == lockTimer.value) ==>
                inhibitorHeld == old(inhibitorHeld)
    {
      if lockTimer.Some? {
        ReleaseForCycle(lockTimer.value);
      }
    }

    /** The `Unlock` signal: lock and lock hint cleared, a notification
      * pending, the fallback timer cancelled and the inhibitor acquired
      * again. */
    method OnUnlock(inhibitErr: Option<string>)
      modifies this`state, this`dirty, this`lockTimer, this`inhibitorHeld
      ensures state == old(state).(Locked := false, LockedHint := false) && dirty
      ensures lockTimer == None
      ensures inhibitorHeld <==> old(inhibitorHeld) || (sleepInhibitorEnabled && managerAvailable && inhibitErr.None?)
    {
      state := state.(Locked := false, LockedHint := false);
      NotifySubscribers();
      lockTimer := None;
      var _ := AcquireSleepInhibitor(inhibitErr);
    }

    /** The `PrepareForSleep` signal. An empty body changes nothing. A true
      * first argument starts the next sleep cycle (the 64-bit id wraps),
      * asks logind to lock first when lock-before-suspend is set, and
      * installs a fresh ready channel; anything else ends the cycle,
      * signals the ready channel, re-binds the session to the path logind
      * now gives it (`lookup`, `props`) and acquires the inhibitor again.
      * Either way the session's sleep preparation becomes that argument. */
    method OnPrepareForSleep(body: seq<Variant>, lookup: Result<string>, props: Result<map<string, Variant>>,
                             inhibitErr: Option<string>)
      requires Valid()
      modifies this`state, this`dirty, this`sleepCycleID, this`inSleepCycle, this`lockerReadyCh,
               this`channelsMade, this`closedChannels, this`inhibitorHeld, this`lockRequests
      ensures Valid()
      ensures |body| == 0 ==> unchanged(this)
      ensures |body| > 0 ==>
                var preparing := body[0].VBool? && body[0].b;
                dirty
                && (preparing ==>
                      state == old(state).(PreparingForSleep := true)
                      && inSleepCycle && sleepCycleID == old(sleepCycleID) + 1
                      && lockRequests == old(lockRequests) + (if lockBeforeSuspend then 1 else 0)
                      && lockerReadyCh == Some(old(channelsMade)) && channelsMade == old(channelsMade) + 1
                      && closedChannels == old(closedChannels) && inhibitorHeld == old(inhibitorHeld))
                && (!preparing ==>
                      state == RebindSession(old(state), managerAvailable, lookup, props).(PreparingForSleep := false)
                      && !inSleepCycle && sleepCycleID == old(sleepCycleID) && lockerReadyCh == None
                      && channelsMade == old(channelsMade) && lockRequests == old(lockRequests)
                      && closedChannels == old(closedChannels) + (if old(lockerReadyCh).Some? then {old(lockerReadyCh).value} else {})
                      && (inhibitorHeld <==> old(inhibitorHeld) || (sleepInhibitorEnabled && managerAvailable && inhibitErr.None?)))
    {
      if |body| == 0 {
        return;
      }
      var preparing := body[0].VBool? && body[0].b;
      if preparing {
        BeginSleepCycle();
      } else {
        EndSleepCycle(lookup, props, inhibitErr);
      }
      state := state.(PreparingForSleep := preparing);
      NotifySubscribers();
    }

    /** Preparing for sleep: the next cycle (the 64-bit id wraps) starts;
      * with lock-before-suspend set one more lock request goes to logind
      * (its answer arrives later as a `Lock` signal); then a fresh ready
      * channel is installed. */
    method BeginSleepCycle()
      requires Valid()
      modifies this`sleepCycleID, this`inSleepCycle, this`lockerReadyCh, this`channelsMade, this`lockRequests
      ensures Valid()
      ensures inSleepCycle && sleepCycleID == old(sleepCycleID) + 1
      ensures lockRequests == old(lockRequests) + (if lockBeforeSuspend then 1 else 0)
      ensures lockerReadyCh == Some(old(channelsMade)) && channelsMade == old(channelsMade) + 1
    {
      sleepCycleID := sleepCycleID + 1;
      inSleepCycle := true;
      if lockBeforeSuspend {
        lockRequests := lockRequests + 1;
      }
      var _ := NewLockerReadyCh();
    }

    /** Waking: the cycle ends, the ready channel is signalled, the session
      * is re-bound to the path logind now reports and the inhibitor is
      * acquired again. */
    method EndSleepCycle(lookup: Result<string>, props: Result<map<string, Variant>>, inhibitErr: Option<string>)
      requires Valid()
      modifies this`inSleepCycle, this`lockerReadyCh, this`closedChannels, this`inhibitorHeld, this`state
      ensures Valid()
      ensures !inSleepCycle && lockerReadyCh == None
      ensures closedChannels == old(closedChannels) + (if old(lockerReadyCh).Some? then {old(lockerReadyCh).value} else {})
      ensures state == RebindSession(old(state), managerAvailable, lookup, props)
      ensures inhibitorHeld <==> old(inhibitorHeld) || (sleepInhibitorEnabled && managerAvailable && inhibitErr.None?)
    {
      inSleepCycle := false;
      SignalLockerReady();
      state := RebindSession(state, managerAvailable, lookup, props);
      var _ := AcquireSleepInhibitor(inhibitErr);
    }

    /** `handlePropertiesChanged`: only a signal with at least two arguments,
      * naming the session interface and carrying a map of changes, is
      * read; the changes are applied key by key in the map's order, and a
      * notification is made pending if any was taken. */
    method OnPropertiesChanged(body: seq<Variant>)
      modifies this`state, this`dirty
      ensures |body| < 2 || body[0] != VString(SessionInterface) || !body[1].VMap? ==>
                state == old(state) && dirty == old(dirty)
      ensures |body| >= 2 && body[0] == VString(SessionInterface) && body[1].VMap? ==>
                state == ApplyChanges(old(state), body[1].entries)
                && (dirty <==> old(dirty) || exists k :: k in body[1].entries && Takes(k, body[1].entries[k]))
    {
      if |body| < 2 {
        return;
      }
      if body[0] != VString(SessionInterface) {
        return;
      }
      if !body[1].VMap? {
        return;
      }
      var needsUpdate := ApplyChangedProperties(body[1].entries);
      if needsUpdate {
        NotifySubscribers();
      }
    }

    /** The loop of `handlePropertiesChanged`: each changed property is
      * applied in the map's order; the result says whether any was taken. */
    method ApplyChangedProperties(changes: map<string, Variant>) returns (needsUpdate: bool)
      modifies this`state
      ensures state == ApplyChanges(old(state), changes)
      ensures needsUpdate <==> exists k :: k in changes && Takes(k, changes[k])
    {
      var start := state;
      needsUpdate := false;
      var todo := changes.Keys;
      while todo != {}
        invariant todo <= changes.Keys
        invariant state == ApplyChanges(start, Restrict(changes, changes.Keys - todo))
        invariant needsUpdate <==> exists k :: k in changes && k !in todo && Takes(k, changes[k])
        decreases |todo|
      {
        var key :| key in todo;
        var v := changes[key];
        ghost var doneBefore := Restrict(changes, changes.Keys - todo);
        assert Restrict(changes, changes.Keys - (todo - {key})) == doneBefore[key := v];
        ApplyChangesStep(start, doneBefore, key, v);
        state := ApplyProperty(state, key, v);
        if Takes(key, v) {
          needsUpdate := true;
        }
        todo := todo - {key};
      }
      assert Restrict(changes, changes.Keys - todo) == changes;
    }

    /** The `NameOwnerChanged` signal for logind (logind restarted): the
      * session is read again from the properties given (a failed read
      * changes nothing), the inhibitor acquired again outside a sleep
      * cycle, and a notification made pending. Any other owner change is
      * ignored. */
    method OnNameOwnerChanged(body: seq<Variant>, props: Result<map<string, Variant>>, inhibitErr: Option<string>)
      modifies this`state, this`dirty, this`inhibitorHeld
      ensures var restart := |body| == 3 && body[0] == VString(Dest)
                             && body[1].VString? && body[1].s != "" && body[2].VString? && body[2].s != "";
              (!restart ==> state == old(state) && dirty == old(dirty) && inhibitorHeld == old(inhibitorHeld))
              && (restart ==>
                    state == (if props.Ok? then RefreshSession(old(state), props.value) else old(state)) && dirty
                    && (inhibitorHeld <==>
                          old(inhibitorHeld) || (!inSleepCycle && sleepInhibitorEnabled && managerAvailable && inhibitErr.None?)))
    {
      if |body| != 3 {
        return;
      }
      var name := if body[0].VString? then body[0].s else "";
      var oldOwner := if body[1].VString? then body[1].s else "";
      var newOwner := if body[2].VString? then body[2].s else "";
      if name == Dest && oldOwner != "" && newOwner != "" {
        if props.Ok? {
          state := RefreshSession(state, props.value);
        }
        if !inSleepCycle {
          var _ := AcquireSleepInhibitor(inhibitErr);
        }
        NotifySubscribers();
      }
    }

    /** `handleDBusSignal`: the signal's name picks the handler; any other
      * signal is ignored. The outcomes of logind calls a handler may make
      * are passed in. */
    method HandleDBusSignal(name: string, body: seq<Variant>, lookup: Result<string>,
                            props: Result<map<string, Variant>>, inhibitErr: Option<string>)
      requires Valid()
      modifies this
      ensures Valid()
      ensures name == SessionInterface + ".Lock" ==> state.Locked && state.LockedHint
      ensures name == SessionInterface + ".Unlock" ==> !state.Locked && !state.LockedHint && lockTimer == None
      ensures name == ManagerInterface + ".PrepareForSleep" && |body| > 0 ==>
                state.PreparingForSleep == (body[0].VBool? && body[0].b)
                && inSleepCycle == (body[0].VBool? && body[0].b)
      ensures name == PropsInterface + ".PropertiesChanged" && |body| >= 2
              && body[0] == VString(SessionInterface) && body[1].VMap? ==>
                state == ApplyChanges(old(state), body[1].entries)
      ensures name !in {SessionInterface + ".Lock", SessionInterface + ".Unlock", ManagerInterface + ".PrepareForSleep",
                        PropsInterface + ".PropertiesChanged", "org.freedesktop.DBus.NameOwnerChanged"} ==>
                unchanged(this)
    {
      if name == SessionInterface + ".Lock" {
        OnLock();
      } else if name == SessionInterface + ".Unlock" {
        OnUnlock(inhibitErr);
      } else if name == ManagerInterface + ".PrepareForSleep" {
        OnPrepareForSleep(body, lookup, props, inhibitErr);
      } else if name == PropsInterface + ".PropertiesChanged" {
        OnPropertiesChanged(body);
      } else if name == "org.freedesktop.DBus.NameOwnerChanged" {
        OnNameOwnerChanged(body, props, inhibitErr);
      }
    }
  }

  /** A whole sleep cycle: preparing starts cycle n + 1 holding the
    * inhibitor, the fallback timer armed by the lock releases it, and
    * waking ends the cycle so a later timer of that cycle does nothing. */
  method SleepCycle(m: Manager)
    requires m.Valid() && m.sleepInhibitorEnabled && m.managerAvailable && m.inhibitorHeld
    modifies m
    ensures m.Valid()
    ensures !m.inSleepCycle && m.inhibitorHeld && m.sleepCycleID == old(m.sleepCycleID) + 1
    ensures !m.state.PreparingForSleep && m.state.Locked
  {
    SleepAndLock(m);
    m.OnPrepareForSleep([VBool(false)], Ok(m.state.SessionPath), Err("unread"), None);
    assert m.inhibitorHeld;
    m.OnLockTimerFired();
  }

  /** The first half of a sleep cycle: preparing starts cycle n + 1, the
    * lock arms the fallback timer of that cycle, and its firing releases
    * the inhibitor. */
  method SleepAndLock(m: Manager)
    requires m.Valid() && m.sleepInhibitorEnabled && m.managerAvailable && m.inhibitorHeld
    modifies m
    ensures m.Valid() && m.sleepInhibitorEnabled && m.managerAvailable
    ensures m.inSleepCycle && !m.inhibitorHeld && m.sleepCycleID == old(m.sleepCycleID) + 1
    ensures m.state.PreparingForSleep && m.state.Locked
  {
    m.OnPrepareForSleep([VBool(true)], Err("unused"), Err("unused"), None);
    m.OnLock();
    m.OnLockTimerFired();
  }
}
