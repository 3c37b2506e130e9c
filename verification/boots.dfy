/** What a board boots with, exactly, and how one without a storage region goes on. */
module Boots {
  import opened Bytes
  import opened Configs
  import opened Devices
  import opened Format
  import opened Layout
  import opened Protocols
  import opened Runs
  import opened Store
  import opened StorageInvariant
  import opened Text
  import Ascii85
  import Crc
  import Refusals

  /** Nothing but erased bytes, of either kind. */
  predicate Erased(bytes: seq<Byte>) {
    (forall b <- bytes :: b == 0x00) || forall b <- bytes :: b == 0xFF
  }

  lemma ErasedIff(bytes: seq<Byte>)
    ensures IsBlank(bytes) <==> Erased(bytes)
  {
    if IsBlank(bytes) {
      assert forall b <- bytes :: b == bytes[0];
    }
    if Erased(bytes) && bytes != [] {
      assert bytes[0] in bytes;
      assert forall i :: 0 <= i < |bytes| ==> bytes[i] in bytes;
    }
  }

  /** Some configuration lies in the region. */
  ghost predicate Holds(bytes: seq<Byte>, size: nat, c: Config) {
    BlobLies(Firmware, bytes, size, c)
  }

  /**
   What the board boots with, from the bytes in the region alone: the configuration that lies there,
   or the factory one, with the status that tells why.
   */
  lemma BootsIff(region: Region, factory: Config)
    ensures
      var b := Boot(region, factory);
      && b.region == region && b.factory == factory
      && (b.status == NoNvm <==> region.None?)
      && (b.status == Blank <==> region.Some? && Erased(region.value))
      && (b.status == StatusOk <==> region.Some? && exists size: nat, c :: Holds(region.value, size, c))
      && (b.status != StatusOk ==> b.live == factory)
      && (b.status == StatusOk ==> exists size: nat :: Holds(region.value, size, b.live))
  {
    hide Decode, IsBlank, BlobLies, Erased;
    if region.Some? {
      var bytes := region.value;
      ErasedIff(bytes);
      if Decode(Firmware, bytes).Ok? {
        DecodedHolds(bytes);
        assert Holds(bytes, BlobSize(bytes), Decode(Firmware, bytes).value);
        NotErased(bytes, BlobSize(bytes), Decode(Firmware, bytes).value);
      }
      if size: nat, c :| Holds(bytes, size, c) {
        LyingDecodes(Firmware, bytes, size, c);
        NotErased(bytes, size, c);
      }
    }
  }

  function BlobSize(bytes: seq<Byte>): nat {
    if |bytes| >= 10 then BlobLength(bytes) else 0
  }

  lemma DecodedHolds(bytes: seq<Byte>)
    requires Decode(Firmware, bytes).Ok?
    ensures Holds(bytes, BlobSize(bytes), Decode(Firmware, bytes).value)
  {
    hide ParseProfiles, Crc.Crc16, BlobLies;
    DecodedLies(Firmware, bytes);
  }

  lemma NotErased(bytes: seq<Byte>, size: nat, c: Config)
    requires BlobLies(Firmware, bytes, size, c)
    ensures !Erased(bytes) && BlobSize(bytes) == size
  {
    hide RecordsLie, Crc.Crc16;
    assert bytes[0] in bytes;
  }

  // ----- without a region

  /** Idle, nothing to store in, and running the factory configuration but for the active index. */
  ghost predicate Volatile(s: State) {
    && s.upload.Idle? && s.board.region == None && s.board.status == NoNvm
    && s.board.live.(active := 0) == s.board.factory.(active := 0)
  }

  lemma StepVolatile(s: State, e: Event)
    requires Volatile(s) && LiveSound(s.board)
    ensures Volatile(Next(s, e).0)
  {
    hide Words, Sanitize, ParseInt, ReadBack, BindingAt, Ascii85.Lines, Ascii85.Encode, Storable, SaveConfig,
      ConfigSize;
    if Selected(s, e).Some? {
      Refusals.SavesIff(None, s.board.live.(active := Selected(s, e).value));
      assert s.board.live.(active := Selected(s, e).value).(active := 0) == s.board.live.(active := 0);
    }
    Refusals.SavesIff(None, s.board.factory);
  }

  lemma {:induction false} RunVolatile(s: State, es: seq<Event>)
    requires Volatile(s) && LiveSound(s.board)
    ensures Volatile(Run(s, es).0) && LiveSound(Run(s, es).0.board)
  {
    hide Next, Volatile, LiveSound;
    if es != [] {
      RunVolatile(s, es[..|es| - 1]);
      StepVolatile(Run(s, es[..|es| - 1]).0, es[|es| - 1]);
      StepLiveSound(Run(s, es[..|es| - 1]).0, es[|es| - 1]);
    }
  }

  /**
   A board without a region, over every run from power-on: it never takes an upload, keeps saying
   that it has no storage, and runs the factory profiles, if with another one of them active.
   */
  lemma NothingSticks(factory: Config, es: seq<Event>)
    requires Storable(Firmware, factory)
    ensures Volatile(Run(PowerOn(None, factory), es).0)
  {
    hide Run, LiveSound, StorableProfile, Volatile;
    BootSound(None, factory);
    assert Volatile(PowerOn(None, factory)) by {
      StartsVolatile(factory);
    }
    RunVolatile(PowerOn(None, factory), es);
  }

  lemma StartsVolatile(factory: Config)
    ensures Volatile(PowerOn(None, factory))
  {
  }
}
