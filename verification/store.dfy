/** The configuration region in non-volatile memory, as values and as the class that writes it. */
module Store {
  import opened Bytes
  import opened Configs
  import opened Format
  import PyCodec

  datatype Status = StatusOk | NoNvm | Blank | Corrupt

  /** The bytes of the region, or none on a board without one. */
  type Region = Option<seq<Byte>>

  function RegionSize(region: Region): nat {
    match region
    case None => 0
    case Some(bytes) => |bytes|
  }

  predicate IsBlank(data: seq<Byte>) {
    data == [] || ((data[0] == 0x00 || data[0] == 0xFF) && forall i :: 0 <= i < |data| ==> data[i] == data[0])
  }

  function Load(region: Region, factory: Config): (Config, Status) {
    match region
    case None => (factory, NoNvm)
    case Some(bytes) =>
      if IsBlank(bytes) then (factory, Blank)
      else
        match Decode(Firmware, bytes)
        case Err => (factory, Corrupt)
        case Ok(c) => (c, StatusOk)
  }

  /** The region after storing `data`: verified first, then written over the front. */
  function Save(region: Region, data: seq<Byte>): Result<Region> {
    if Decode(Firmware, data).Err? then Err
    else
      match region
      case None => Ok(None)
      case Some(bytes) => if |data| > |bytes| then Err else Ok(Some(data + bytes[|data|..]))
  }

  function SavedStatus(region: Region): Status {
    if region.None? then NoNvm else StatusOk
  }

  /** What the firmware's encoder returns or raises. */
  function FirmwareEncode(c: Config): Result<seq<Byte>> {
    if Encodable(c) then Ok(Encode(c)) else Err
  }

  function SaveConfig(region: Region, c: Config): Result<(Region, nat)> {
    var data :- FirmwareEncode(c);
    var after :- Save(region, data);
    Ok((after, |data|))
  }

  function StoredLength(region: Region): nat {
    match region
    case None => 0
    case Some(bytes) =>
      if |bytes| < HEADER_BASE || bytes[..4] != MAGIC then 0
      else if HEADER_BASE + CRC_TRAILER <= U16At(bytes, 8) <= |bytes| then U16At(bytes, 8)
      else 0
  }

  function ReadBlob(region: Region): Option<seq<Byte>> {
    var n := StoredLength(region);
    if n == 0 then None else Some(region.value[..n])
  }

  class NvmStore {
    const nvm: array?<Byte>
    var status: Status

    constructor (nvm: array?<Byte>)
      ensures this.nvm == nvm && status == StatusOk
    {
      this.nvm := nvm;
      status := StatusOk;
    }

    ghost function Contents(): Region
      reads this, nvm
    {
      if nvm == null then None else Some(nvm[..])
    }

    function Size(): (n: nat)
      reads this, nvm
      ensures n == RegionSize(Contents())
    {
      if nvm == null then 0 else nvm.Length
    }

    method LoadConfig(factory: Config) returns (c: Config, s: Status)
      modifies this
      ensures (c, s) == Load(Contents(), factory)
      ensures status == s && Contents() == old(Contents())
    {
      if nvm == null {
        status := NoNvm;
        return factory, status;
      }
      var data := nvm[..];
      var blank := ScanBlank(data);
      if blank {
        status := Blank;
        return factory, status;
      }
      var decoded := PyCodec.DecodeConfig(data);
      if decoded.Err? {
        status := Corrupt;
        return factory, status;
      }
      status := StatusOk;
      return decoded.value, status;
    }

    static method ScanBlank(data: seq<Byte>) returns (blank: bool)
      ensures blank == IsBlank(data)
    {
      if data == [] {
        return true;
      }
      var first := data[0];
      if first != 0x00 && first != 0xFF {
        return false;
      }
      for i := 0 to |data|
        invariant forall k :: 0 <= k < i ==> data[k] == first
      {
        if data[i] != first {
          return false;
        }
      }
      return true;
    }

    /** A refused blob leaves the region and the status alone. */
    method Write(data: seq<Byte>) returns (r: Result<nat>)
      modifies this, nvm
      ensures match Save(old(Contents()), data)
              case Err => r == Err && Contents() == old(Contents()) && status == old(status)
              case Ok(after) => r == Ok(|data|) && Contents() == after && status == SavedStatus(after)
    {
      hide Decode;
      var decoded := PyCodec.DecodeConfig(data);
      if decoded.Err? {
        return Err;
      }
      if nvm == null {
        status := NoNvm;
        return Ok(|data|);
      }
      if |data| > nvm.Length {
        return Err;
      }
      forall i | 0 <= i < |data| {
        nvm[i] := data[i];
      }
      assert nvm[..] == data + old(nvm[..])[|data|..];
      status := StatusOk;
      return Ok(|data|);
    }

    method WriteConfig(c: Config) returns (r: Result<nat>)
      modifies this, nvm
      ensures match SaveConfig(old(Contents()), c)
              case Err => r == Err && Contents() == old(Contents()) && status == old(status)
              case Ok((after, n)) => r == Ok(n) && Contents() == after && status == SavedStatus(after)
    {
      hide Decode, Encode, Encodable, Save;
      var data :- PyCodec.EncodeConfig(c);
      r := Write(data);
    }

    method ReadStored() returns (r: Option<seq<Byte>>)
      ensures r == ReadBlob(Contents())
    {
      var n := StoredBytes();
      if n == 0 {
        return None;
      }
      return Some(nvm[0..n]);
    }

    method StoredBytes() returns (n: nat)
      ensures n == StoredLength(Contents())
    {
      if nvm == null || nvm.Length < HEADER_BASE {
        return 0;
      }
      var head := nvm[0..HEADER_BASE];
      assert head[0..4] == nvm[..][..4];
      if head[0..4] != MAGIC {
        return 0;
      }
      var total := U16At(head, 8);
      return if HEADER_BASE + CRC_TRAILER <= total <= nvm.Length then total else 0;
    }
  }
}
