/** What the tokio stream adapters are about: the answers of a poll, and files as they are read
    and written at a position. */
module AsyncTokio {
  import opened Results
  import opened Words

  type byte = x: int | 0 <= x < 256

  /** What a poll returns; `Panics` stands for copying more bytes than the caller's buffer has
      room for. */
  datatype Poll<+T> = Pending | Ready(value: T) | Failed(error: IoResult) | Panics

  /** The answers after which an adapter believes in an operation that is over. */
  predicate IsLoss<T>(r: Poll<T>) {
    r.Panics? || (r.Failed? && !r.error.Refused?)
  }

  /** The stretch of `n` bytes at `from`; a read of nothing may start beyond the end. */
  ghost predicate InFile(file: seq<byte>, from: nat, n: nat) {
    n == 0 || from + n <= |file|
  }

  function Window(file: seq<byte>, from: nat, n: nat): (w: seq<byte>)
    requires InFile(file, from, n)
    ensures |w| == n
  {
    if n == 0 then [] else file[from..from + n]
  }

  /** Adjacent stretches join; an empty one changes nothing. */
  lemma WindowsJoin(file: seq<byte>, from: nat, n: nat, k: nat)
    requires InFile(file, from, n) && InFile(file, from + n, k)
    ensures InFile(file, from, n + k) && Window(file, from, n + k) == Window(file, from, n) + Window(file, from + n, k)
  {
  }

  /** Of two streams that grow in step, the longer ones agree if and only if both parts do. */
  lemma SameSoFar(a: seq<byte>, b: seq<byte>, x: seq<byte>, y: seq<byte>)
    requires |a| == |b| && |x| == |y|
    ensures a + x == b + y <==> a == b && x == y
  {
    assert (a + x)[..|a|] == a && (b + y)[..|b|] == b;
    assert (a + x)[|a|..] == x && (b + y)[|b|..] == y;
  }

  function Max(a: nat, b: nat): nat {
    if a < b then b else a
  }

  /** Byte `i` of a file after `data` was written at `from`; a gap reads as zero. */
  function Put(file: seq<byte>, from: nat, data: seq<byte>, i: nat): byte {
    if from <= i < from + |data| then data[i - from] else if i < |file| then file[i] else 0
  }

  /** A positional write: a gap before `from` is filled with zeros, writing nothing changes
      nothing. */
  function Overwrite(file: seq<byte>, from: nat, data: seq<byte>): seq<byte> {
    if data == [] then file
    else seq(Max(|file|, from + |data|), i requires i >= 0 => Put(file, from, data, i))
  }

  /** Reading back what was written; everything else in the file is as before. */
  lemma WriteThenRead(file: seq<byte>, from: nat, data: seq<byte>)
    ensures InFile(Overwrite(file, from, data), from, |data|)
    ensures Window(Overwrite(file, from, data), from, |data|) == data
    ensures forall i :: 0 <= i < |file| && !(from <= i < from + |data|) ==>
                          i < |Overwrite(file, from, data)| && Overwrite(file, from, data)[i] == file[i]
  {
  }

  /** Writing two pieces one behind the other is writing their concatenation. */
  lemma WritesJoin(file: seq<byte>, from: nat, x: seq<byte>, y: seq<byte>)
    ensures Overwrite(Overwrite(file, from, x), from + |x|, y) == Overwrite(file, from, x + y)
  {
    if x == [] {
      assert x + y == y;
    } else if y == [] {
      assert x + y == x;
    } else {
      var two := Overwrite(Overwrite(file, from, x), from + |x|, y);
      var both := Overwrite(file, from, x + y);
      SameLength(file, from, x, y);
      hide Overwrite;
      forall i | 0 <= i < |two| ensures two[i] == both[i] {
        JoinAt(file, from, x, y, i);
      }
    }
  }

  lemma SameLength(file: seq<byte>, from: nat, x: seq<byte>, y: seq<byte>)
    requires x != [] && y != []
    ensures |Overwrite(Overwrite(file, from, x), from + |x|, y)| == |Overwrite(file, from, x + y)|
  {
  }

  lemma JoinAt(file: seq<byte>, from: nat, x: seq<byte>, y: seq<byte>, i: nat)
    requires x != [] && y != [] && i < |Overwrite(file, from, x + y)|
    requires i < |Overwrite(Overwrite(file, from, x), from + |x|, y)|
    ensures Overwrite(Overwrite(file, from, x), from + |x|, y)[i] == Overwrite(file, from, x + y)[i]
  {
    var one := Overwrite(file, from, x);
    assert Overwrite(one, from + |x|, y)[i] == Put(one, from + |x|, y, i);
    assert Overwrite(file, from, x + y)[i] == Put(file, from, x + y, i);
    assert i < |one| ==> one[i] == Put(file, from, x, i);
  }
}
