/** The live configuration over the store: what the protocol acts on, without the hardware. */
module Devices {
  import opened Bytes
  import opened Configs
  import opened Format
  import opened Store
  import PyCodec

  /** `factory` is the configuration the firmware falls back to; it never changes. */
  datatype Board = Board(region: Region, live: Config, status: Status, factory: Config)

  function Boot(region: Region, factory: Config): Board {
    var (c, status) := Load(region, factory);
    Board(region, c, status, factory)
  }

  /** Store an uploaded blob and make it live, or change nothing. */
  function Commit(b: Board, data: seq<Byte>): (Board, Result<nat>) {
    match Save(b.region, data)
    case Err => (b, Err)
    case Ok(after) =>
      (b.(region := after, live := Decode(Firmware, data).value, status := SavedStatus(after)), Ok(|data|))
  }

  /** The live configuration is changed first; a save that then fails does not change it back. */
  function SetActive(b: Board, n: int): (Board, Result<nat>) {
    var live := b.live.(active := n);
    match SaveConfig(b.region, live)
    case Err => (b.(live := live), Err)
    case Ok((after, size)) => (b.(live := live, region := after), Ok(size))
  }

  /** As with `SetActive`, the live configuration is replaced before the save can fail. */
  function RestoreDefaults(b: Board): (Board, Result<nat>) {
    match SaveConfig(b.region, b.factory)
    case Err => (b.(live := b.factory), Err)
    case Ok((after, size)) => (b.(live := b.factory, region := after, status := SavedStatus(after)), Ok(size))
  }

  /** What is stored, or the live configuration encoded when nothing is. */
  function ReadBack(b: Board): Result<seq<Byte>> {
    match ReadBlob(b.region)
    case Some(data) => Ok(data)
    case None => FirmwareEncode(b.live)
  }

  class Device {
    const store: NvmStore
    const factory: Config
    var config: Config
    var status: Status

    constructor (store: NvmStore, factory: Config)
      modifies store
      ensures this.store == store && this.factory == factory
      ensures store.Contents() == old(store.Contents())
      ensures State() == Boot(store.Contents(), factory)
    {
      this.store, this.factory := store, factory;
      config, status := factory, NoNvm;
      new;
      config, status := store.LoadConfig(factory);
    }

    ghost function State(): Board
      reads this, store, store.nvm
    {
      Board(store.Contents(), config, status, factory)
    }

    method CommitBlob(data: seq<Byte>) returns (r: Result<nat>)
      modifies this, store, store.nvm
      ensures (State(), r) == Commit(old(State()), data)
    {
      hide Decode;
      var written :- store.Write(data);
      var decoded := PyCodec.DecodeConfig(data);
      config := decoded.value;
      status := store.status;
      return Ok(written);
    }

    method Activate(n: int) returns (r: Result<nat>)
      modifies this, store, store.nvm
      ensures (State(), r) == SetActive(old(State()), n)
    {
      hide SaveConfig;
      config := config.(active := n);
      r := store.WriteConfig(config);
    }

    method Reset() returns (r: Result<nat>)
      modifies this, store, store.nvm
      ensures (State(), r) == RestoreDefaults(old(State()))
    {
      hide SaveConfig;
      config := factory;
      var written :- store.WriteConfig(config);
      status := store.status;
      return Ok(written);
    }

    method Read() returns (r: Result<seq<Byte>>)
      ensures r == ReadBack(State())
    {
      var stored := store.ReadStored();
      if stored.Some? {
        return Ok(stored.value);
      }
      r := PyCodec.EncodeConfig(config);
    }
  }
}
