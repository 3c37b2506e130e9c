/** A blob whose offset table points eight times at one record: accepted, and larger when re-encoded. */
module Overlap {
  import opened Bytes
  import opened Configs
  import opened Crc
  import opened Devices
  import opened Format
  import opened Protocols
  import opened RoundTrip
  import opened Runs
  import opened StorageInvariant
  import opened Text

  const TABLE_END := 26

  function Offsets(n: nat): seq<Byte> {
    if n == 0 then [] else Offsets(n - 1) + U16LE(TABLE_END)
  }

  function Head(p: Profile): seq<Byte> {
    MAGIC + ([1, 0, 0, 8] + U16LE(28 + |EncodeProfile(p)|))
  }

  function Body(p: Profile): seq<Byte> {
    Head(p) + (Offsets(8) + EncodeProfile(p))
  }

  function Blob(p: Profile): seq<Byte> {
    Body(p) + U16LE(Crc16(Body(p)))
  }

  function Copies(p: Profile, n: nat): (ps: seq<Profile>)
    ensures |ps| == n && forall q <- ps :: q == p
  {
    if n == 0 then [] else Copies(p, n - 1) + [p]
  }

  lemma {:induction false} OffsetEntry(n: nat, i: nat)
    requires i < n
    ensures |Offsets(n)| == 2 * n && U16At(Offsets(n), 2 * i) == TABLE_END
  {
    OffsetsSize(n);
    OffsetsSize(n - 1);
    if i == n - 1 {
      assert Offsets(n)[2 * i..] == U16LE(TABLE_END);
    } else {
      OffsetEntry(n - 1, i);
    }
  }

  lemma {:induction false} OffsetsSize(n: nat)
    ensures |Offsets(n)| == 2 * n
  {
    if n > 0 {
      OffsetsSize(n - 1);
    }
  }

  lemma BodyLayout(p: Profile)
    ensures |Body(p)| == TABLE_END + |EncodeProfile(p)|
    ensures At(Body(p), 0, Head(p)) && At(Body(p), 10, Offsets(8)) && At(Body(p), TABLE_END, EncodeProfile(p))
  {
    hide EncodeProfile, Offsets, At;
    var tail := Offsets(8) + EncodeProfile(p);
    OffsetsSize(8);
    assert |Head(p)| == 10;
    WholeAt(Body(p));
    AtSplit(Body(p), 0, Head(p), tail);
    AtSplit(Body(p), 10, Offsets(8), EncodeProfile(p));
  }

  lemma WholeAt(s: seq<Byte>)
    ensures At(s, 0, s)
  {
    assert s[0..|s|] == s;
  }

  lemma {:induction false} AllEntriesParse(p: Profile, i: nat)
    requires StorableProfile(Firmware, p) && i <= 8 && HEADER_BASE + 16 <= |Body(p)|
    ensures ParseProfiles(Firmware, Body(p), 8, i) == Ok(Copies(p, i))
  {
    hide EncodeProfile, ParseProfile, StorableProfile, Offsets, U16At, At, Body;
    if i > 0 {
      AllEntriesParse(p, i - 1);
      BodyLayout(p);
      OffsetEntry(8, i - 1);
      TableIndex(Body(p), 10, Offsets(8), 2 * (i - 1));
      ProfileRoundTrip(Firmware, p, Body(p), TABLE_END);
      ProfileLength(p);
    }
  }

  lemma HeadFields(p: Profile, data: seq<Byte>)
    requires At(data, 0, Head(p)) && 28 + |EncodeProfile(p)| < 0x1_0000
    ensures data[..4] == MAGIC && data[4] == 1 && data[6] == 0 && data[7] == 8
    ensures BlobLength(data) == 28 + |EncodeProfile(p)|
  {
    hide EncodeProfile;
    var h := Head(p);
    assert data[0..10] == h;
    assert data[..4] == h[..4] == MAGIC;
    assert forall i :: 0 <= i < 10 ==> data[i] == data[0..10][i];
    assert h[8..10] == U16LE(28 + |EncodeProfile(p)|);
    assert data[8] == h[8..10][0] && data[9] == h[8..10][1];
  }

  /** The firmware accepts it as eight profiles. */
  lemma OverlapDecodes(p: Profile)
    requires StorableProfile(Firmware, p) && 28 + |EncodeProfile(p)| < 0x1_0000
    ensures Decode(Firmware, Blob(p)) == Ok(Config(1, 0, Copies(p, 8)))
  {
    hide EncodeProfile, ParseProfiles, StorableProfile, Body, Head, Crc16, U16LE, U16At, At, BlobLength;
    BodyLayout(p);
    Framed(Body(p), Crc16(Body(p)), []);
    assert Blob(p) + [] == Blob(p);
    HeadFields(p, Blob(p));
    AllEntriesParse(p, 8);
  }

  lemma {:induction false} CopiesSize(p: Profile, n: nat)
    ensures n > 0 ==> ProfilesSize(Copies(p, n)) == ProfilesSize(Copies(p, n - 1)) + ProfileSize(p)
  {
    hide ProfileSize;
    if n > 0 {
      assert Copies(p, n)[..n - 1] == Copies(p, n - 1);
    }
  }

  lemma EightCopiesSize(p: Profile)
    ensures ProfilesSize(Copies(p, 8)) == 8 * ProfileSize(p)
  {
    hide ProfileSize, ProfilesSize, Copies;
    CopiesSize(p, 1); CopiesSize(p, 2); CopiesSize(p, 3); CopiesSize(p, 4);
    CopiesSize(p, 5); CopiesSize(p, 6); CopiesSize(p, 7); CopiesSize(p, 8);
    NoCopies(p);
  }

  lemma NoCopies(p: Profile)
    ensures ProfilesSize(Copies(p, 0)) == 0
  {
  }

  /**
   Any record of more than 508 bytes gives such a blob that a 4096-byte region takes with room to
   spare; the board then runs it, but `profile 1` is refused and leaves the live configuration
   apart from the stored one.
   */
  lemma OverlapThenProfileParts(s: State, p: Profile, now: int)
    requires s.upload.Idle? && LiveSound(s.board) && StorableProfile(Firmware, p)
    requires s.board.region.Some? && |Blob(p)| <= |s.board.region.value|
    requires 508 < ProfileSize(p) && 28 + |EncodeProfile(p)| < 0x1_0000
    ensures Commit(s.board, Blob(p)).1 == Ok(|Blob(p)|)
    ensures
      var stored := s.(board := Commit(s.board, Blob(p)).0);
      var (after, replies) := Next(stored, Receive(PROFILE_ONE, now));
      && Synced(stored.board)
      && replies == [Refused] && after.board.live.active == 1
      && after.board.region == stored.board.region && !Synced(after.board)
  {
    hide EncodeProfile, Decode, StorableProfile, Blob, ProfileSize, Words, Sanitize, ParseInt, Synced,
      LiveSound, Encode;
    OverlapDecodes(p);
    CommitSyncs(s.board, Blob(p));
    CommitSound(s.board, Blob(p));
    var stored := s.(board := Commit(s.board, Blob(p)).0);
    EightCopiesSize(p);
    OneLine();
    ParseOne();
    CommandWordsDiffer();
    StepSyncedIff(stored, Receive(PROFILE_ONE, now));
  }

  const ONE: AsciiLine := [49]
  const PROFILE_ONE: AsciiLine := PROFILE + ([32] + ONE)

  lemma ParseOne()
    ensures ParseInt(ONE) == Some(1)
  {
    assert ONE[..0] == [];
    assert DigitsValue(10, ONE) == Some(1);
  }

  lemma OneLine()
    ensures
      var words := Words(Sanitize(PROFILE_ONE));
      words == [PROFILE, ONE] && Lower(words[0]) == PROFILE
  {
    hide Words, Sanitize;
    TwoWords(PROFILE, ONE);
    assert Lower(PROFILE) == PROFILE;
  }
}
