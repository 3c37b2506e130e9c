/**
 The blob format as a printer and a parser, over any buffer and offset.

 `Dialect` tells the two decoders apart: the firmware's also checks the two mode bytes and that
 strings are UTF-8. Both decoders stop at the first fault; which fault is not modelled.
 */
module Format {
  import opened Bytes
  import opened Configs
  import opened Crc
  import Utf8

  const MAGIC: seq<Byte> := [0x4B, 0x42, 0x32, 0x4B]

  datatype Dialect = Cli | Firmware

  // ----- printing

  function EncodeStep(s: Step): seq<Byte> {
    match s
    case Key(keycode, mods) => [0, keycode, mods]
    case Text(text) => [1, Low(|text|)] + text
    case Consumer(code) => [2] + U16LE(code)
    case Delay(ms) => [3] + U16LE(ms)
    case Unknown(tag) => [tag]
  }

  function EncodeSteps(steps: seq<Step>): seq<Byte> {
    if steps == [] then [] else EncodeSteps(steps[..|steps| - 1]) + EncodeStep(steps[|steps| - 1])
  }

  function EncodeRgb(c: Rgb): seq<Byte> {
    [c.r, c.g, c.b]
  }

  function EncodeBinding(b: Binding): seq<Byte> {
    EncodeRgb(b.color) + ([Low(|b.steps|)] + EncodeSteps(b.steps))
  }

  function EncodeBindings(bs: seq<Binding>): seq<Byte> {
    if bs == [] then [] else EncodeBindings(bs[..|bs| - 1]) + EncodeBinding(bs[|bs| - 1])
  }

  function EncodeModes(p: Profile): seq<Byte> {
    [p.overflow, p.extCount, p.brightness, p.idleMode]
  }

  function EncodeName(name: seq<Byte>): seq<Byte> {
    [Low(|name|)] + name
  }

  function EncodeSlots(p: Profile): seq<Byte> {
    [Low(|p.slots|)] + (EncodeBinding(p.tap) + EncodeBindings(p.slots))
  }

  function EncodeProfile(p: Profile): seq<Byte> {
    EncodeName(p.name) + (U16LE(p.dwellMs) + (U16LE(p.tapMaxMs) + (EncodeModes(p)
    + (EncodeRgb(p.idleColor) + EncodeSlots(p)))))
  }

  function EncodeProfiles(ps: seq<Profile>): seq<Byte> {
    if ps == [] then [] else EncodeProfiles(ps[..|ps| - 1]) + EncodeProfile(ps[|ps| - 1])
  }

  /** One offset for each record; the first record starts at `base`. */
  function EncodeOffsets(base: nat, ps: seq<Profile>): seq<Byte> {
    if ps == [] then []
    else
      var front := ps[..|ps| - 1];
      EncodeOffsets(base, front) + U16LE(base + |EncodeProfiles(front)|)
  }

  function EncodeHeader(c: Config): seq<Byte> {
    MAGIC + ([c.version, 0, Low(c.active), Low(|c.profiles|)] + U16LE(ConfigSize(c)))
  }

  function EncodeBody(c: Config): seq<Byte> {
    EncodeHeader(c) + (EncodeOffsets(HEADER_BASE + 2 * |c.profiles|, c.profiles) + EncodeProfiles(c.profiles))
  }

  function Encode(c: Config): seq<Byte> {
    EncodeBody(c) + U16LE(Crc16(EncodeBody(c)))
  }

  // ----- parsing

  /** What a read at some offset gives: a value and the offset after it, or a fault. */
  datatype Parse<+T> = Got(value: T, next: nat) | Stop {
    predicate IsFailure() {
      Stop?
    }

    function PropagateFailure<U>(): Parse<U>
      requires Stop?
    {
      Stop
    }

    function Extract(): (T, nat)
      requires Got?
    {
      (value, next)
    }
  }

  function ReadU8(buf: seq<Byte>, pos: nat): Parse<Byte> {
    if pos + 1 > |buf| then Stop else Got(buf[pos], pos + 1)
  }

  function ReadU16(buf: seq<Byte>, pos: nat): Parse<U16> {
    if pos + 2 > |buf| then Stop else Got(U16At(buf, pos), pos + 2)
  }

  function ReadBytes(buf: seq<Byte>, pos: nat, n: nat): Parse<seq<Byte>> {
    if pos + n > |buf| then Stop else Got(buf[pos..pos + n], pos + n)
  }

  predicate GoodText(d: Dialect, text: seq<Byte>) {
    d == Firmware ==> Utf8.WellFormed(text)
  }

  function ParseStep(d: Dialect, buf: seq<Byte>, pos: nat): Parse<Step> {
    var (tag, p) :- ReadU8(buf, pos);
    if tag == 0 then
      var (pair, q) :- ReadBytes(buf, p, 2);
      Got(Key(pair[0], pair[1]), q)
    else if tag == 1 then
      var (n, q) :- ReadU8(buf, p);
      var (text, r) :- ReadBytes(buf, q, n);
      if GoodText(d, text) then Got(Text(text), r) else Stop
    else if tag == 2 then
      var (code, q) :- ReadU16(buf, p);
      Got(Consumer(code), q)
    else if tag == 3 then
      var (ms, q) :- ReadU16(buf, p);
      Got(Delay(ms), q)
    else
      Stop
  }

  function ParseSteps(d: Dialect, buf: seq<Byte>, pos: nat, n: nat): Parse<seq<Step>> {
    if n == 0 then Got([], pos)
    else
      var (steps, p) :- ParseSteps(d, buf, pos, n - 1);
      var (s, q) :- ParseStep(d, buf, p);
      Got(steps + [s], q)
  }

  function ParseRgb(buf: seq<Byte>, pos: nat): Parse<Rgb> {
    var (c, p) :- ReadBytes(buf, pos, 3);
    Got(Rgb(c[0], c[1], c[2]), p)
  }

  function ParseBinding(d: Dialect, buf: seq<Byte>, pos: nat): Parse<Binding> {
    var (color, p) :- ParseRgb(buf, pos);
    var (n, q) :- ReadU8(buf, p);
    if n > MAX_STEPS then Stop
    else
      var (steps, r) :- ParseSteps(d, buf, q, n);
      Got(Binding(color, steps), r)
  }

  function ParseBindings(d: Dialect, buf: seq<Byte>, pos: nat, n: nat): Parse<seq<Binding>> {
    if n == 0 then Got([], pos)
    else
      var (bs, p) :- ParseBindings(d, buf, pos, n - 1);
      var (b, q) :- ParseBinding(d, buf, p);
      Got(bs + [b], q)
  }

  function ParseName(d: Dialect, buf: seq<Byte>, pos: nat): Parse<seq<Byte>> {
    var (n, p) :- ReadU8(buf, pos);
    if n > MAX_NAME_LEN then Stop
    else
      var (name, q) :- ReadBytes(buf, p, n);
      if GoodText(d, name) then Got(name, q) else Stop
  }

  predicate GoodModes(d: Dialect, overflow: Byte, idleMode: Byte) {
    d == Firmware ==> overflow <= CLAMP && idleMode <= RAINBOW
  }

  function ParseProfile(d: Dialect, buf: seq<Byte>, pos: nat): Parse<Profile> {
    var (name, p1) :- ParseName(d, buf, pos);
    var (dwellMs, p2) :- ReadU16(buf, p1);
    var (tapMaxMs, p3) :- ReadU16(buf, p2);
    var (modes, p4) :- ReadBytes(buf, p3, 4);
    var (idleColor, p5) :- ParseRgb(buf, p4);
    var (nslots, p6) :- ReadU8(buf, p5);
    if !GoodModes(d, modes[0], modes[3]) || nslots < 1 || nslots > MAX_SLOTS then Stop
    else
      var (tap, p7) :- ParseBinding(d, buf, p6);
      var (slots, p8) :- ParseBindings(d, buf, p7, nslots);
      Got(Profile(name, dwellMs, tapMaxMs, modes[0], modes[1], modes[2], modes[3], idleColor, tap, slots), p8)
  }

  /** The records that the first `i` of `n` table entries point to. */
  function ParseProfiles(d: Dialect, body: seq<Byte>, n: nat, i: nat): Result<seq<Profile>>
    requires i <= n && HEADER_BASE + 2 * n <= |body|
  {
    if i == 0 then Ok([])
    else
      var ps :- ParseProfiles(d, body, n, i - 1);
      var off := U16At(body, HEADER_BASE + 2 * (i - 1));
      if off < HEADER_BASE + 2 * n || off >= |body| then Err
      else
        match ParseProfile(d, body, off)
        case Stop => Err
        case Got(p, _) => Ok(ps + [p])
  }

  /** The header alone: magic, version, and a length field that fits the buffer. */
  predicate GoodHeader(data: seq<Byte>) {
    && |data| >= HEADER_BASE + CRC_TRAILER
    && data[..4] == MAGIC
    && data[4] == FORMAT_VERSION
    && HEADER_BASE + CRC_TRAILER <= BlobLength(data) <= |data|
  }

  function BlobLength(data: seq<Byte>): nat
    requires |data| >= HEADER_BASE
  {
    U16At(data, 8)
  }

  function Decode(d: Dialect, data: seq<Byte>): Result<Config> {
    if !GoodHeader(data) then Err
    else
      var total := BlobLength(data);
      var body := data[..total - 2];
      var n := data[7];
      if Crc16(body) != U16At(data, total - 2) then Err
      else if n < 1 || n > MAX_PROFILES || |body| < HEADER_BASE + 2 * n || data[6] >= n then Err
      else
        var ps :- ParseProfiles(d, body, n, n);
        Ok(Config(data[4], data[6], ps))
  }

  // ----- what both sides agree a stored configuration looks like

  predicate StorableStep(d: Dialect, s: Step) {
    match s
    case Text(text) => |text| <= MAX_TEXT_LEN && GoodText(d, text)
    case Unknown(_) => false
    case _ => true
  }

  predicate StorableBinding(d: Dialect, b: Binding) {
    |b.steps| <= MAX_STEPS && forall s <- b.steps :: StorableStep(d, s)
  }

  predicate StorableProfile(d: Dialect, p: Profile) {
    && |p.name| <= MAX_NAME_LEN && GoodText(d, p.name)
    && GoodModes(d, p.overflow, p.idleMode)
    && 1 <= |p.slots| <= MAX_SLOTS
    && StorableBinding(d, p.tap)
    && forall b <- p.slots :: StorableBinding(d, b)
  }

  /** What a decoder guarantees of its result. */
  predicate Storable(d: Dialect, c: Config) {
    && c.version == FORMAT_VERSION
    && 1 <= |c.profiles| <= MAX_PROFILES
    && 0 <= c.active < |c.profiles|
    && forall p <- c.profiles :: StorableProfile(d, p)
  }

  predicate Utf8Strings(c: Config) {
    forall p <- c.profiles :: Utf8Profile(p)
  }

  predicate Utf8Profile(p: Profile) {
    Utf8.WellFormed(p.name) && Utf8Binding(p.tap) && forall b <- p.slots :: Utf8Binding(b)
  }

  predicate Utf8Binding(b: Binding) {
    forall s <- b.steps :: s.Text? ==> Utf8.WellFormed(s.text)
  }

  // ----- what the firmware's encoder takes

  predicate EncodableStep(s: Step) {
    match s
    case Text(text) => |text| <= 255
    case Unknown(_) => false
    case _ => true
  }

  predicate EncodableBinding(b: Binding) {
    |b.steps| <= 255 && forall s <- b.steps :: EncodableStep(s)
  }

  predicate EncodableProfile(p: Profile) {
    && |p.name| <= 255 && |p.slots| <= 255
    && EncodableBinding(p.tap)
    && forall b <- p.slots :: EncodableBinding(b)
  }

  /** What the firmware's encoder does not raise on. */
  predicate Encodable(c: Config) {
    && 1 <= |c.profiles| <= MAX_PROFILES
    && 0 <= c.active < |c.profiles|
    && (forall p <- c.profiles :: EncodableProfile(p))
    && ConfigSize(c) <= NVM_SIZE
  }
}
