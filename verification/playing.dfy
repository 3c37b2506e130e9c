/** The profile the key plays, and that it is the active one of the stored configuration. */
module Playing {
  import opened Arithmetic
  import opened Bytes
  import opened Configs
  import opened Devices
  import opened Format
  import opened Gesture
  import opened Protocols
  import opened RoundTrip
  import opened Runs
  import opened Store
  import opened StorageInvariant
  import opened Text
  import opened Ticks
  import Ascii85
  import Commands
  import Crc
  import Utf8

  /** The active profile, with Python's negative indices. */
  function ActiveProfile(c: Config): Option<Profile> {
    Item(c.profiles, c.active)
  }

  predicate Saves(r: Reply) {
    r.Done? && (r.detail.Written? || r.detail.Active? || r.detail.DefaultsWritten?)
  }

  /** The board with the profile its gesture and LEDs were last given. */
  datatype Played = Played(s: State, profile: Profile)

  /** A step; the gesture and the LEDs are given the active profile only after a save went well. */
  function PlayedNext(x: Played, e: Event): Played {
    var (t, replies) := Next(x.s, e);
    Played(t,
           if |replies| == 1 && Saves(replies[0]) then
             match ActiveProfile(t.board.live) case Some(p) => p case None => x.profile
           else x.profile)
  }

  function PlayedRun(x: Played, es: seq<Event>): Played {
    if es == [] then x else PlayedNext(PlayedRun(x, es[..|es| - 1]), es[|es| - 1])
  }

  /** The key plays the active profile of what is stored and live. */
  ghost predicate InForce(x: Played) {
    LiveSound(x.s.board) && Synced(x.s.board) && ActiveProfile(x.s.board.live) == Some(x.profile)
  }

  lemma SyncedHasActive(b: Board)
    requires Synced(b)
    ensures Storable(Firmware, b.live) && ActiveProfile(b.live) == Some(b.live.profiles[b.live.active])
  {
    hide Decode, StorableProfile;
    DecodedStorable(Firmware, b.region.value);
  }

  // ----- a step that reports no save, and parts nothing, leaves the live configuration alone

  lemma CommitReports(s: State, e: Event)
    requires Committed(s, e).Some? && Commit(s.board, Committed(s, e).value).1.Ok?
    ensures |Next(s, e).1| == 1 && Saves(Next(s, e).1[0])
  {
    hide Strip, Ascii85.Join, Ascii85.Decode, Crc.Crc16, Commit;
  }

  lemma SelectReports(s: State, e: Event)
    requires LiveSound(s.board) && Synced(s.board)
    requires Selected(s, e).Some? && SetActive(s.board, Selected(s, e).value).1.Ok?
    ensures |Next(s, e).1| == 1 && Saves(Next(s, e).1[0])
  {
    hide Words, Sanitize, ParseInt, SetActive, LiveSound, Synced;
    CommandWordsDiffer();
    SelectedInRange(s.board, Selected(s, e).value);
  }

  lemma SelectedInRange(b: Board, n: int)
    requires LiveSound(b) && Synced(b) && SetActive(b, n).1.Ok?
    ensures 0 <= n < |b.live.profiles| && SetActive(b, n).0.live.profiles == b.live.profiles
  {
    hide Decode, Storable, SaveConfig, Encode;
    var live := b.live.(active := n);
    assert live.(active := 0) == b.live.(active := 0);
    SaveConfigIff(b.region, live);
  }

  lemma DefaultsReport(s: State, e: Event)
    requires Command(s, e) == Some(DEFAULTS) && RestoreDefaults(s.board).1.Ok?
    ensures |Next(s, e).1| == 1 && Saves(Next(s, e).1[0])
  {
    hide Words, Sanitize, RestoreDefaults;
    CommandWordsDiffer();
  }

  lemma SelectFails(b: Board, n: int)
    requires LiveSound(b) && Synced(b) && n < |b.live.profiles| && SetActive(b, n).1.Err?
    ensures n == b.live.active || n < 0 || !Fits(b.live, b.region)
  {
    hide Decode, Storable, SaveConfig, Encode;
    var live := b.live.(active := n);
    assert live.(active := 0) == b.live.(active := 0);
    assert ConfigSize(live) == ConfigSize(b.live);
    SaveConfigIff(b.region, live);
  }

  lemma RestoreFails(b: Board)
    requires LiveSound(b) && Synced(b) && RestoreDefaults(b).1.Err?
    ensures !Fits(b.factory, b.region) && RestoreDefaults(b).0.live == b.factory
  {
    hide Decode, SaveConfig, Encode, StorableProfile;
    SaveConfigIff(b.region, b.factory);
  }

  lemma UnreportedLeavesLive(s: State, e: Event)
    requires LiveSound(s.board) && Synced(s.board) && !Parts(s, e)
    requires !(|Next(s, e).1| == 1 && Saves(Next(s, e).1[0]))
    ensures Next(s, e).0.board.live == s.board.live
  {
    hide Next, Command, Commit, SetActive, RestoreDefaults, Synced, LiveSound, Fits, Committed, Selected, Saves;
    StepBoard(s, e);
    if Committed(s, e).Some? {
      var data := Committed(s, e).value;
      if Commit(s.board, data).1.Ok? {
        CommitReports(s, e);
      }
      SyncedHasRegion(s.board);
      CommitSyncs(s.board, data);
    } else if Selected(s, e).Some? {
      var n := Selected(s, e).value;
      if SetActive(s.board, n).1.Ok? {
        SelectReports(s, e);
      } else {
        SelectFails(s.board, n);
        FailedSelect(s.board, n);
      }
    } else if Command(s, e) == Some(DEFAULTS) {
      if RestoreDefaults(s.board).1.Ok? {
        DefaultsReport(s, e);
      } else {
        RestoreFails(s.board);
      }
    }
  }

  lemma FailedSelect(b: Board, n: int)
    ensures SetActive(b, n).0.live == b.live.(active := n)
  {
    hide SaveConfig;
  }

  /** From agreement, any step that does not part the stored and the live keeps all three together. */
  lemma StepInForce(x: Played, e: Event)
    requires InForce(x) && !Parts(x.s, e)
    ensures InForce(PlayedNext(x, e))
  {
    hide Next, Synced, LiveSound, Parts, Saves;
    StepSyncedIff(x.s, e);
    StepLiveSound(x.s, e);
    SyncedHasActive(Next(x.s, e).0.board);
    if !(|Next(x.s, e).1| == 1 && Saves(Next(x.s, e).1[0])) {
      UnreportedLeavesLive(x.s, e);
    }
  }

  /** And any other step breaks it: from agreement, exactly those steps keep it. */
  lemma StepInForceIff(x: Played, e: Event)
    requires InForce(x)
    ensures InForce(PlayedNext(x, e)) <==> !Parts(x.s, e)
  {
    hide Next, Synced, LiveSound, Parts, Saves;
    StepSyncedIff(x.s, e);
    if !Parts(x.s, e) {
      StepInForce(x, e);
    }
  }

  /** The profile that a step would make the active one of the live configuration. */
  function Would(s: State, e: Event): Option<Profile> {
    if Selected(s, e).Some? then Item(s.board.live.profiles, Selected(s, e).value) else ActiveProfile(s.board.factory)
  }

  lemma PartsReportsNothing(s: State, e: Event)
    requires LiveSound(s.board) && Synced(s.board) && Parts(s, e)
    ensures !(|Next(s, e).1| == 1 && Saves(Next(s, e).1[0]))
    ensures ActiveProfile(Next(s, e).0.board.live) == Would(s, e)
  {
    hide Next, Command, Synced, LiveSound, Fits, Committed, Selected, SaveConfig, Saves;
    StepBoard(s, e);
    StepSyncedIff(s, e);
    SyncedHasRegion(s.board);
    if |Next(s, e).1| == 1 && Saves(Next(s, e).1[0]) {
      SavedSyncs(s, e);
    }
    if Committed(s, e).Some? {
      CommitIsNoCommand(s, e);
    }
  }

  lemma SavedSyncs(s: State, e: Event)
    requires LiveSound(s.board) && s.board.region.Some?
    requires |Next(s, e).1| == 1 && Saves(Next(s, e).1[0])
    ensures Synced(Next(s, e).0.board)
  {
    hide Next, Synced, LiveSound;
    SuccessSyncs(s, e);
  }

  /**
   Exactly when a step leaves the key on the active profile of the live configuration: always when
   it parts nothing, and otherwise only by the accident that the other profile is the same.
   */
  lemma PlaysActiveIff(x: Played, e: Event)
    requires InForce(x)
    ensures
      var y := PlayedNext(x, e);
      ActiveProfile(y.s.board.live) == Some(y.profile) <==> !Parts(x.s, e) || Would(x.s, e) == Some(x.profile)
  {
    hide Next, Synced, LiveSound, Parts, Saves, Would, ActiveProfile;
    if Parts(x.s, e) {
      PartsReportsNothing(x.s, e);
    } else {
      StepInForce(x, e);
    }
  }

  /** Over any run without such a step the key plays what is stored. */
  lemma {:induction false} RunInForce(x: Played, es: seq<Event>)
    requires InForce(x) && NonePart(x.s, es)
    ensures InForce(PlayedRun(x, es)) && PlayedRun(x, es).s == Run(x.s, es).0
  {
    hide Next, InForce, Parts;
    if es != [] {
      var front, last := es[..|es| - 1], es[|es| - 1];
      RunInForce(x, front);
      StepInForce(PlayedRun(x, front), last);
      PlayedFollows(PlayedRun(x, front), last);
    }
  }

  lemma PlayedFollows(x: Played, e: Event)
    ensures PlayedNext(x, e).s == Next(x.s, e).0
  {
    hide Next, Saves;
  }

  /** A board that loads its region at power-on starts that way. */
  lemma PowerOnInForce(region: Region, factory: Config)
    requires Storable(Firmware, factory) && Boot(region, factory).status == StatusOk
    ensures
      var s := PowerOn(region, factory);
      && ActiveProfile(s.board.live).Some?
      && InForce(Played(s, ActiveProfile(s.board.live).value))
  {
    hide Boot, Storable, LiveSound, Synced;
    BootSound(region, factory);
    SyncedHasActive(Boot(region, factory));
  }

  /** And so does every board from the first save that is answered with OK. */
  lemma SuccessInForce(x: Played, e: Event)
    requires LiveSound(x.s.board) && x.s.board.region.Some?
    requires |Next(x.s, e).1| == 1 && Saves(Next(x.s, e).1[0])
    ensures InForce(PlayedNext(x, e))
  {
    hide Next, Synced, LiveSound;
    SuccessSyncs(x.s, e);
    StepLiveSound(x.s, e);
    SyncedHasActive(Next(x.s, e).0.board);
  }

  // ----- what the key then fires

  /**
   While the key plays what is stored: whatever a release fires exists in the stored configuration,
   is the binding with that number of its active profile, and has the colour that was on show.
   */
  lemma FiresStoredBinding(x: Played, epoch: int, t: int, h: nat)
    requires InForce(x) && h < HALF
    ensures |x.profile.slots| >= 1
    ensures
      var c, p := x.s.board.live, x.profile;
      && StateAt(p, Elapsed(Tick(epoch, t + h), Tick(epoch, t))) == StateAt(p, h)
      && x.s.board.region.Some? && Decode(Firmware, x.s.board.region.value) == Ok(c)
      && match StateAt(p, h)
         case Err => p.dwellMs == 0 && h >= p.tapMaxMs
         case Ok(shown) =>
           match Fires(shown)
           case None => shown == Cancel
           case Some(i) =>
             && i < |Commands.Numbered(p)| && BindingAt(c, c.active, i) == Some(Commands.Numbered(p)[i])
             && ShownColor(p, shown) == Some(Commands.Numbered(p)[i].color)
  {
    hide Decode, LiveSound, StateAt, Elapsed, Tick;
    SyncedHasActive(x.s.board);
    SlotCount(x.s.board.live, x.profile);
    HoldIsTrueTime(x.profile, epoch, t, h);
    StateAtInRange(x.profile, h);
  }

  /** A release after `h` milliseconds fires the binding whose number is on show, if it fires. */
  predicate FiresShown(c: Config, p: Profile, h: nat)
    requires |p.slots| >= 1
  {
    match StateAt(p, h)
    case Err => true
    case Ok(shown) =>
      match Fires(shown)
      case None => true
      case Some(i) => i < |Commands.Numbered(p)| && BindingAt(c, c.active, i) == Some(Commands.Numbered(p)[i])
  }

  /** The bindings a hold can reach are the same in both profiles. */
  predicate SameBindings(p: Profile, q: Profile) {
    (p.tapMaxMs >= 1 ==> q.tap == p.tap) && (p.dwellMs >= 1 ==> p.slots <= q.slots)
  }

  lemma SlotReached(p: Profile, i: nat)
    requires Playable(p) && i < |p.slots| <= MAX_SLOTS
    ensures
      var h := p.tapMaxMs + i * p.dwellMs;
      0 <= h < HALF && StateAt(p, h) == Ok(Slot(i))
  {
    hide StateFor;
    var d: nat := p.dwellMs;
    MulAtLeast(MAX_SLOTS, i, d);
    DivModUnique(i * d, d, i, 0);
    SlotAt(p, p.tapMaxMs + i * d, i);
  }

  lemma SlotAt(p: Profile, h: nat, i: nat)
    requires Playable(p) && i < |p.slots| && h >= p.tapMaxMs && (h - p.tapMaxMs) / p.dwellMs == i
    ensures StateFor(p, h) == Slot(i)
  {
    hide Place;
    PlaceOfFirst(p, i);
  }

  lemma PlaceOfFirst(p: Profile, i: nat)
    requires i < |p.slots|
    ensures Place(p, i) == Slot(i)
  {
    DivModUnique(i, |p.slots|, 0, i);
    DivModUnique(i, |p.slots| + 1, 0, i);
  }

  /**
   With the gesture on `p` and the live configuration on `q`: every release fires the binding that
   was on show exactly when `p` has no reachable binding that `q` has not under the same number.
   */
  lemma FiresShownIff(c: Config, p: Profile, q: Profile)
    requires ActiveProfile(c) == Some(q) && 1 <= |p.slots| <= MAX_SLOTS
    ensures (forall h: nat | h < HALF :: FiresShown(c, p, h)) <==> SameBindings(p, q)
  {
    hide StateAt;
    if SameBindings(p, q) {
      forall h: nat | h < HALF
        ensures FiresShown(c, p, h)
      {
        StateAtMeans(p, h);
      }
    } else if p.tapMaxMs >= 1 && q.tap != p.tap {
      StateAtMeans(p, 0);
      assert !FiresShown(c, p, 0);
    } else {
      var i := OtherSlot(p, q);
      SlotReached(p, i);
      assert !FiresShown(c, p, p.tapMaxMs + i * p.dwellMs);
    }
  }

  lemma StateAtMeans(p: Profile, h: nat)
    requires |p.slots| >= 1
    ensures StateAt(p, h).Ok? <==> h < p.tapMaxMs || p.dwellMs >= 1
    ensures
      match StateAt(p, h)
      case Err => true
      case Ok(shown) =>
        && (shown == Tap <==> p.tapMaxMs > h)
        && (shown.Slot? ==> shown.index < |p.slots| && p.dwellMs >= 1)
  {
    if Playable(p) {
      StateInRange(p, h);
    }
  }

  lemma OtherSlot(p: Profile, q: Profile) returns (i: nat)
    requires !(p.slots <= q.slots)
    ensures i < |p.slots| && (i >= |q.slots| || q.slots[i] != p.slots[i])
  {
    if |p.slots| > |q.slots| {
      i := |q.slots|;
    } else {
      i :| i < |p.slots| && q.slots[i] != p.slots[i];
    }
  }

  /**
   Where the two differ: when the last profile is another one, a refused `profile -1` leaves the
   key on its old profile, while what it fires is looked up in the last; and some release then
   fires another binding than it showed, unless the two agree on every binding a hold can reach.
   */
  lemma NegativePlaysAnother(x: Played, now: int)
    requires InForce(x) && x.s.upload.Idle?
    requires x.s.board.live.profiles != []
    requires x.s.board.live.profiles[|x.s.board.live.profiles| - 1] != x.profile
    ensures 1 <= |x.profile.slots| <= MAX_SLOTS
    ensures
      var after := PlayedNext(x, Receive(PROFILE_MINUS_ONE, now));
      var last := x.s.board.live.profiles[|x.s.board.live.profiles| - 1];
      && after.profile == x.profile && ActiveProfile(after.s.board.live) == Some(last) != Some(after.profile)
      && ((exists h: nat | h < HALF :: !FiresShown(after.s.board.live, x.profile, h))
          <==> !SameBindings(x.profile, last))
  {
    hide Next, Synced, LiveSound, FiresShown, SameBindings, Storable, StorableProfile;
    NegativeProfileParts(x.s, now);
    NegativeKeepsProfiles(x.s, now);
    SyncedHasActive(x.s.board);
    SlotCount(x.s.board.live, x.profile);
    var last := x.s.board.live.profiles[|x.s.board.live.profiles| - 1];
    FiresShownIff(x.s.board.live.(active := -1), x.profile, last);
  }

  lemma SlotCount(c: Config, p: Profile)
    requires Storable(Firmware, c) && p in c.profiles
    ensures 1 <= |p.slots| <= MAX_SLOTS
  {
    hide Utf8.WellFormed, StorableBinding;
    assert StorableProfile(Firmware, p);
  }

  lemma NegativeKeepsProfiles(s: State, now: int)
    requires s.upload.Idle? && LiveSound(s.board) && Synced(s.board)
    ensures Next(s, Receive(PROFILE_MINUS_ONE, now)).0.board.live == s.board.live.(active := -1)
  {
    hide Synced, LiveSound, Words, Sanitize, SaveConfig, ParseInt;
    MinusOneLine();
    ParseMinusOne();
    CommandWordsDiffer();
    NegativeRefused(s.board);
  }

  // ----- where it all starts

  /**
   Whatever bytes a board powers on with, one `defaults` brings everything together: the region
   starts with the encoding of the live configuration, and the key plays its active profile.
   */
  lemma DefaultsRecovers(region: Region, factory: Config, profile: Profile, now: int)
    requires Storable(Firmware, factory) && region.Some? && Fits(factory, region)
    ensures
      var x := PlayedNext(Played(PowerOn(region, factory), profile), Receive(DEFAULTS, now));
      InForce(x) && Canonical(x.s.board) && x.s.board.live == factory
  {
    hide Next, Storable, Fits, LiveSound, Synced, Canonical, Load;
    var s := PowerOn(region, factory);
    BootSound(region, factory);
    Commands.DefaultsAnswers(s, now);
    SuccessInForce(Played(s, profile), Receive(DEFAULTS, now));
  }
}
