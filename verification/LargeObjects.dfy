/** Upload and download of large objects in chunks of 32768 characters, with single quotes doubled on upload. */
module LargeObjects {
  import opened Wrappers
  import opened Text

  const BUF_SIZE: nat := 32768

  /** What regex_replace(next, regex("'"), "''") makes of a chunk. */
  function Doubled(s: string): string {
    if s == "" then "" else Doubled(s[..|s| - 1]) + if s[|s| - 1] == '\'' then "''" else [s[|s| - 1]]
  }

  /** The end of the chunk that starts at i. */
  function ChunkEnd(len: nat, i: nat): (e: nat)
    requires i < len
    ensures i < e <= len
  {
    if len - i < BUF_SIZE then len else i + BUF_SIZE
  }

  /** What can happen to a write: the client library may refuse it, or the server may report an error, after which its
      transaction can only be rolled back. */
  datatype WriteFault = NoFault | ClientError | ServerError

  /** How much of the data is written when the writes fail at the given offsets: whole chunks up to the first
      failing one. */
  ghost function UploadedFrom(len: nat, faults: nat -> WriteFault, i: nat): (n: nat)
    requires i <= len
    ensures i <= n <= len && (n < len ==> !faults(n).NoFault?)
    ensures (forall k :: faults(k).NoFault?) ==> n == len
    decreases len - i
  {
    if i == len || !faults(i).NoFault? then i else UploadedFrom(len, faults, ChunkEnd(len, i))
  }

  class LargeObject {
    var content: string
    var position: nat

    constructor ()
      ensures content == "" && position == 0
    {
      content, position := "", 0;
    }

    /** lo_write at the end of a fresh object. */
    method Write(s: string, fail: bool) returns (written: int)
      requires position == |content|
      modifies this
      ensures written == if fail then -1 else |s|
      ensures content == old(content) + (if fail then "" else s) && position == |content|
    {
      if fail {
        return -1;
      }
      content, position, written := content + s, position + |s|, |s|;
    }

    /** lo_read: at most `max` characters, at least one unless at the end; how many is up to the server. A negative
        wish stands for an error. */
    method Read(max: nat, wish: int) returns (n: int, s: string)
      requires position <= |content| && max > 0
      modifies this`position
      ensures position <= |content|
      ensures wish < 0 ==> n == -1 && position == old(position)
      ensures wish >= 0 ==> 0 <= n <= max && position == old(position) + n && s == content[old(position)..position]
      ensures wish >= 0 && old(position) < |content| ==> n > 0
    {
      if wish < 0 {
        return -1, "";
      }
      var rest := |content| - position;
      var most := if rest < max then rest else max;
      n := if wish > most then most else if wish == 0 && most > 0 then 1 else wish;
      s := content[position..position + n];
      position := position + n;
    }
  }

  lemma {:induction false} DoubledConcat(a: string, b: string)
    ensures Doubled(a + b) == Doubled(a) + Doubled(b)
  {
    if b == "" {
      assert a + b == a;
    } else {
      assert (a + b)[..|a + b| - 1] == a + b[..|b| - 1];
      DoubledConcat(a, b[..|b| - 1]);
    }
  }

  /** The stored object is the doubled image of the data written, wherever the chunk boundaries fall. A failing write
      ends the loop and the transaction is committed all the same: after an error on the server that stores no object,
      after one in the client library what was written so far. */
  method Upload(data: string, faults: nat -> WriteFault) returns (stored: LargeObject?)
    ensures var n := UploadedFrom(|data|, faults, 0);
      && (stored == null <==> n < |data| && faults(n).ServerError?)
      && (stored != null ==> fresh(stored) && stored.content == Doubled(data[..n]))
  {
    var lo := new LargeObject();
    var len, lenRead: nat := |data|, 0;
    while len > lenRead
      invariant lenRead <= len && lo.position == |lo.content|
      invariant lo.content == Doubled(data[..lenRead])
      invariant UploadedFrom(len, faults, 0) == UploadedFrom(len, faults, lenRead)
      decreases len - lenRead
    {
      var lenEnd := ChunkEnd(len, lenRead);
      var next := Doubled(data[lenRead..lenEnd]);
      var written := lo.Write(next, !faults(lenRead).NoFault?);
      if written == -1 {
        break;
      }
      DoubledConcat(data[..lenRead], data[lenRead..lenEnd]);
      assert data[..lenRead] + data[lenRead..lenEnd] == data[..lenEnd];
      lenRead := lenEnd;
    }
    stored := if lenRead < len && faults(lenRead).ServerError? then null else lo;
  }

  /** The read loop reassembles the stored content exactly, however short the reads are; an error leaves a prefix. */
  method Download(lo: LargeObject, wishes: nat -> int) returns (retval: string)
    modifies lo`position
    ensures retval <= lo.content
    ensures (forall k :: wishes(k) >= 0) ==> retval == lo.content
  {
    lo.position := 0;
    retval := "";
    var k := 0;
    var n, buf := lo.Read(BUF_SIZE, wishes(k));
    while n > 0
      invariant lo.position <= |lo.content| && (wishes(k) < 0 ==> n <= 0)
      invariant wishes(k) >= 0 ==> n >= 0 && retval + buf == lo.content[..lo.position]
      invariant n == 0 ==> buf == "" && lo.position == |lo.content|
      invariant retval <= lo.content
      decreases |lo.content| - lo.position, n
    {
      retval := retval + buf;
      k := k + 1;
      n, buf := lo.Read(BUF_SIZE, wishes(k));
    }
  }

  // ---------------------------------------------------------------- what a round trip keeps

  function Quotes(s: string): nat {
    if s == "" then 0 else Quotes(s[..|s| - 1]) + if s[|s| - 1] == '\'' then 1 else 0
  }

  lemma {:induction false} DoubledLength(s: string)
    ensures |Doubled(s)| == |s| + Quotes(s)
    ensures Quotes(s) == 0 <==> '\'' !in s
    ensures Quotes(s) == 0 ==> Doubled(s) == s
  {
    if s != "" {
      DoubledLength(s[..|s| - 1]);
      assert s == s[..|s| - 1] + [s[|s| - 1]];
    }
  }

  lemma DoubledIff(data: string)
    ensures Doubled(data) == data <==> '\'' !in data
  {
    DoubledLength(data);
  }

  /** An upload and the download of what it stored; without an object there is nothing to open. Undisturbed, the text
      that comes back is the doubled image, and it is the data if and only if they hold no single quote. */
  method UploadThenDownload(data: string, faults: nat -> WriteFault, wishes: nat -> int) returns (back: string)
    ensures back <= Doubled(data[..UploadedFrom(|data|, faults, 0)])
    ensures (forall k :: faults(k).NoFault?) && (forall k :: wishes(k) >= 0) ==> back == Doubled(data)
    ensures (forall k :: faults(k).NoFault?) && (forall k :: wishes(k) >= 0) ==> (back == data <==> '\'' !in data)
  {
    var stored := Upload(data, faults);
    back := "";
    if stored != null {
      back := Download(stored, wishes);
    }
    assert data[..|data|] == data;
    DoubledIff(data);
  }

  /** Still no information is lost: different data are stored differently. */
  lemma {:induction false} DoubledInjective(a: string, b: string)
    requires Doubled(a) == Doubled(b)
    ensures a == b
  {
    if a == "" || b == "" {
      DoubledLength(a);
      DoubledLength(b);
    } else {
      var a', b' := a[..|a| - 1], b[..|b| - 1];
      var x, y := Doubled(a), Doubled(b);
      assert a == a' + [a[|a| - 1]] && b == b' + [b[|b| - 1]];
      assert x[|x| - 1] == a[|a| - 1] && y[|y| - 1] == b[|b| - 1];
      var d := if a[|a| - 1] == '\'' then 2 else 1;
      assert x[..|x| - d] == Doubled(a') && y[..|y| - d] == Doubled(b');
      DoubledInjective(a', b');
    }
  }

  /** Doubling quotes is replacing ' by '' in the sense of string_replace. */
  lemma {:induction false} DoubledIsReplaced(s: string)
    ensures Doubled(s) == Replaced(s, "'", "''")
    decreases |s|
  {
    match Find(s, "'", 0)
    case None =>
      DoubledLength(s);
      DelimiterFreeEnds(s, '\'');
    case Some(i) =>
      DelimiterFreeFirst(s, '\'', i);
      DoubledAtQuote(s, i);
      ReplacedOnce(s, "'", "''", s[..i], s[i + 1..]);
      DoubledIsReplaced(s[i + 1..]);
  }

  lemma DoubledAtQuote(s: string, i: nat)
    requires i < |s| && s[i] == '\'' && '\'' !in s[..i]
    ensures Doubled(s) == s[..i] + "''" + Doubled(s[i + 1..])
  {
    DoubledLength(s[..i]);
    CutAt(s, i);
    DoubledPieces(s, s[..i], s[i + 1..]);
  }

  lemma CutAt(s: string, i: nat)
    requires i < |s|
    ensures s == (s[..i] + [s[i]]) + s[i + 1..]
  {
  }

  lemma DoubledPieces(s: string, a: string, b: string)
    requires s == (a + "'") + b && Doubled(a) == a
    ensures Doubled(s) == a + "''" + Doubled(b)
  {
    DoubledConcat(a + "'", b);
    DoubledConcat(a, "'");
    assert Doubled("'") == "''";
  }

  lemma DelimiterFreeFirst(s: string, c: char, i: nat)
    requires Find(s, [c], 0) == Some(i)
    ensures c !in s[..i] && s[i] == c
  {
    OccursChar(s, c, i);
    forall j | 0 <= j < i ensures s[j] != c {
      OccursChar(s, c, j);
    }
  }

  /** What is written are whole chunks of 32768 characters, up to the first chunk whose write fails or to the end. */
  lemma WholeChunks(len: nat, faults: nat -> WriteFault)
    ensures var n := UploadedFrom(len, faults, 0);
      && n <= len && (n < len ==> n % 32768 == 0 && !faults(n).NoFault?)
      && forall k: nat :: 32768 * k < n ==> faults(32768 * k).NoFault?
  {
    ChunksFrom(len, faults, 0);
  }

  lemma {:induction false} ChunksFrom(len: nat, faults: nat -> WriteFault, m: nat)
    requires 32768 * m <= len
    ensures var n := UploadedFrom(len, faults, 32768 * m);
      && (n < len ==> n % 32768 == 0 && !faults(n).NoFault?)
      && forall k: nat :: m <= k && 32768 * k < n ==> faults(32768 * k).NoFault?
    decreases len - 32768 * m
  {
    var i := 32768 * m;
    if i < len && faults(i).NoFault? && len - i >= 32768 {
      assert ChunkEnd(len, i) == 32768 * (m + 1);
      ChunksFrom(len, faults, m + 1);
    }
  }
}
