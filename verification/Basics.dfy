/** Result types, bytes and the list vocabulary shared by every component. */
module Basics {

  newtype byte = b: int | 0 <= b < 256

  type Bytes = seq<byte>

  datatype Option<+T> = None | Some(value: T)

  datatype Result<+T, +E> = Ok(value: T) | Err(error: E)

  const U64_MAX: nat := 0xffff_ffff_ffff_ffff

  /** The concatenation of a list of pieces, in order. */
  function Flatten<T>(pieces: seq<seq<T>>): seq<T> {
    if |pieces| == 0 then [] else Flatten(pieces[..|pieces| - 1]) + pieces[|pieces| - 1]
  }

  lemma FlattenSnoc<T>(pieces: seq<seq<T>>, last: seq<T>)
    ensures Flatten(pieces + [last]) == Flatten(pieces) + last
  {
    assert (pieces + [last])[..|pieces|] == pieces;
  }

  ghost predicate NoDuplicates<T>(s: seq<T>) {
    forall i, j :: 0 <= i < j < |s| ==> s[i] != s[j]
  }

  ghost function Elements<T>(s: seq<T>): set<T> { set x | x in s }

  lemma PushElement<T>(s: seq<T>, x: T)
    requires NoDuplicates(s) && x !in Elements(s)
    ensures NoDuplicates(s + [x]) && Elements(s + [x]) == Elements(s) + {x}
  {
    forall i | 0 <= i < |s|
      ensures s[i] != x
    {
      assert s[i] in Elements(s);
    }
  }

  lemma PopElement<T>(s: seq<T>)
    requires NoDuplicates(s) && s != []
    ensures NoDuplicates(s[..|s| - 1]) && Elements(s[..|s| - 1]) == Elements(s) - {s[|s| - 1]}
  {
    var rest, last := s[..|s| - 1], s[|s| - 1];
    assert s == rest + [last];
    forall i | 0 <= i < |rest|
      ensures rest[i] != last
    {
      assert s[i] == rest[i];
    }
  }
}
