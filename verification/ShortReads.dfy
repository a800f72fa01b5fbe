/** Reading files through arbitrarily short reads, and hashing what was read. */
module ShortReads {
  import opened Basics
  import opened FileTree

  type Digest = string

  /** An incremental hasher, a local value: its digest is an unknown function of everything absorbed. */
  datatype Hasher = Hasher(absorbed: Bytes) {
    function Update(chunk: Bytes): Hasher { Hasher(absorbed + chunk) }

    function Finalize(sha: Bytes -> Digest): Digest { sha(absorbed) }
  }

  /** The record of failed file operations: a read may fail at any moment, but not without leaving a trace here. */
  class Faults {
    var count: nat

    constructor ()
      ensures count == 0
    {
      count := 0;
    }

    method Strike()
      modifies this
      ensures count == old(count) + 1
    {
      count := count + 1;
    }
  }

  /** A file opened for sequential reading; its content does not change while it is open. */
  class OpenFile {
    const content: Bytes
    const faults: Faults
    var pos: nat

    ghost predicate Valid() reads this { pos <= |content| }

    ghost function Rest(): Bytes
      reads this
      requires Valid()
    {
      content[pos..]
    }

    constructor (content: Bytes, faults: Faults)
      ensures Valid() && this.content == content && this.faults == faults && pos == 0
    {
      this.content := content;
      this.faults := faults;
      pos := 0;
    }

    /** `read`: an error, or at least one byte unless the buffer is full or the file is at its end. */
    method Read(buf: array<byte>, from: nat) returns (r: Result<nat, IoError>)
      requires Valid() && from <= buf.Length
      modifies this`pos, buf, faults
      ensures Valid()
      ensures faults.count == if r.Ok? then old(faults.count) else old(faults.count) + 1
      ensures buf[..from] == old(buf[..from])
      ensures r.Ok? ==>
                && from + r.value <= buf.Length
                && pos == old(pos) + r.value
                && buf[from..from + r.value] == content[old(pos)..pos]
                && (r.value == 0 <==> from == buf.Length || old(pos) == |content|)
    {
      if * {
        faults.Strike();
        return Err(Failed);
      }
      var n: nat := 0;
      if from < buf.Length && pos < |content| {
        n :| 1 <= n <= buf.Length - from && n <= |content| - pos;
      }
      forall i | 0 <= i < n {
        buf[from + i] := content[pos + i];
      }
      pos := pos + n;
      return Ok(n);
    }
  }

  method Open(content: Bytes, faults: Faults) returns (r: Result<OpenFile, IoError>)
    modifies faults
    ensures faults.count == if r.Ok? then old(faults.count) else old(faults.count) + 1
    ensures r.Ok? ==>
              && fresh(r.value) && r.value.Valid() && r.value.faults == faults
              && r.value.content == content && r.value.pos == 0
  {
    if * {
      faults.Strike();
      return Err(Failed);
    }
    var f := new OpenFile(content, faults);
    return Ok(f);
  }

  const TRANSFER_CHUNK: nat := 64 * 1024

  /** `sha256_file`: the digest of the whole content, however the reads fall; it fails only when one of them does. */
  method Sha256File(content: Bytes, sha: Bytes -> Digest, faults: Faults) returns (r: Result<Digest, IoError>)
    modifies faults
    ensures r.Ok? <==> faults.count == old(faults.count)
    ensures faults.count >= old(faults.count)
    ensures r.Ok? ==> r.value == sha(content)
  {
    var attempt := Open(content, faults);
    if attempt.Err? {
      return Err(attempt.error);
    }
    var file := attempt.value;
    var hasher := Hasher([]);
    var buf := new byte[TRANSFER_CHUNK](_ => 0);
    while true
      invariant file.Valid() && fresh(file) && fresh(buf)
      invariant file.content == content && file.faults == faults && faults.count == old(faults.count)
      invariant hasher.absorbed == content[..file.pos]
      decreases |content| - file.pos
    {
      ghost var before := file.pos;
      var n := file.Read(buf, 0);
      if n.Err? {
        return Err(n.error);
      }
      if n.value == 0 {
        break;
      }
      hasher := hasher.Update(buf[..n.value]);
      assert buf[..n.value] == buf[0..n.value];
      assert content[..file.pos] == content[..before] + content[before..file.pos];
    }
    assert content[..file.pos] == content;
    return Ok(hasher.Finalize(sha));
  }
}
