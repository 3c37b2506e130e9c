/** The bounds-checked reader that both decoders advance over a blob. */
module Cursors {
  import opened Bytes
  import opened Configs
  import opened Format

  /** `r` and the new offset are what `parse` says. */
  ghost predicate Yields<T>(parse: Parse<T>, r: Result<T>, pos: nat) {
    match parse
    case Got(v, next) => r == Ok(v) && pos == next
    case Stop => r == Err
  }

  class Cursor {
    const buf: seq<Byte>
    var pos: nat

    constructor (buf: seq<Byte>, pos: nat)
      ensures this.buf == buf && this.pos == pos
    {
      this.buf, this.pos := buf, pos;
    }

    method U8() returns (r: Result<Byte>)
      modifies this
      ensures Yields(ReadU8(buf, old(pos)), r, pos)
    {
      if pos + 1 > |buf| {
        return Err;
      }
      r := Ok(buf[pos]);
      pos := pos + 1;
    }

    method U16() returns (r: Result<U16>)
      modifies this
      ensures Yields(ReadU16(buf, old(pos)), r, pos)
    {
      if pos + 2 > |buf| {
        return Err;
      }
      r := Ok(U16At(buf, pos));
      pos := pos + 2;
    }

    method Take(n: nat) returns (r: Result<seq<Byte>>)
      modifies this
      ensures Yields(ReadBytes(buf, old(pos), n), r, pos)
    {
      if pos + n > |buf| {
        return Err;
      }
      r := Ok(buf[pos..pos + n]);
      pos := pos + n;
    }
  }

  // ----- a fault partway through a sequence of records is a fault of the whole

  lemma {:induction false} StepsStop(d: Dialect, buf: seq<Byte>, pos: nat, i: nat, n: nat)
    requires i <= n && ParseSteps(d, buf, pos, i).Stop?
    ensures ParseSteps(d, buf, pos, n).Stop?
  {
    hide ParseStep;
    if i < n {
      StepsStop(d, buf, pos, i, n - 1);
    }
  }

  lemma {:induction false} BindingsStop(d: Dialect, buf: seq<Byte>, pos: nat, i: nat, n: nat)
    requires i <= n && ParseBindings(d, buf, pos, i).Stop?
    ensures ParseBindings(d, buf, pos, n).Stop?
  {
    hide ParseBinding;
    if i < n {
      BindingsStop(d, buf, pos, i, n - 1);
    }
  }

  lemma {:induction false} ProfilesStop(d: Dialect, body: seq<Byte>, n: nat, i: nat, j: nat)
    requires i <= j <= n && 10 + 2 * n <= |body| && ParseProfiles(d, body, n, i).Err?
    ensures ParseProfiles(d, body, n, j).Err?
  {
    hide ParseProfile;
    if i < j {
      ProfilesStop(d, body, n, i, j - 1);
    }
  }

  // ----- one more record

  lemma NothingParsed(d: Dialect, buf: seq<Byte>, pos: nat, n: nat)
    ensures ParseSteps(d, buf, pos, 0) == Got([], pos)
    ensures ParseBindings(d, buf, pos, 0) == Got([], pos)
    ensures 10 + 2 * n <= |buf| ==> ParseProfiles(d, buf, n, 0) == Ok([])
  {
  }

  lemma BindingsNext(d: Dialect, buf: seq<Byte>, pos: nat, i: nat, bs: seq<Binding>, at: nat)
    requires ParseBindings(d, buf, pos, i) == Got(bs, at)
    ensures ParseBindings(d, buf, pos, i + 1)
         == match ParseBinding(d, buf, at)
            case Stop => Stop
            case Got(b, next) => Got(bs + [b], next)
  {
    hide ParseBinding;
  }

  lemma ProfilesNext(d: Dialect, body: seq<Byte>, n: nat, i: nat, ps: seq<Profile>)
    requires i < n && 10 + 2 * n <= |body| && ParseProfiles(d, body, n, i) == Ok(ps)
    ensures
      var off := U16At(body, 10 + 2 * i);
      ParseProfiles(d, body, n, i + 1)
      == if off < 10 + 2 * n || off >= |body| then Err
         else
           match ParseProfile(d, body, off)
           case Stop => Err
           case Got(p, _) => Ok(ps + [p])
  {
    hide ParseProfile;
  }
}
