/** One address space over several memory chips. */
module MultiChip {
  import opened Layers

  const WORD := 0x1_0000_0000

  /** The chips' contents one after the other. */
  ghost function Concat(chips: seq<seq<byte>>): seq<byte> {
    if chips == [] then [] else Concat(chips[..|chips| - 1]) + chips[|chips| - 1]
  }

  /** The address where chip `i` begins. */
  ghost function Start(chips: seq<seq<byte>>, i: nat): nat
    requires i <= |chips|
  {
    if i == 0 then 0 else Start(chips, i - 1) + |chips[i - 1]|
  }

  lemma {:induction false} StartOfPrefix(chips: seq<seq<byte>>, n: nat, i: nat)
    requires i <= n <= |chips|
    ensures Start(chips[..n], i) == Start(chips, i)
  {
    if i > 0 {
      StartOfPrefix(chips, n, i - 1);
    }
  }

  lemma {:induction false} StartsOrdered(chips: seq<seq<byte>>, i: nat, j: nat)
    requires i <= j <= |chips|
    ensures Start(chips, i) <= Start(chips, j)
    decreases j
  {
    if i < j {
      StartsOrdered(chips, i, j - 1);
    }
  }

  lemma {:induction false} ConcatSize(chips: seq<seq<byte>>)
    ensures |Concat(chips)| == Start(chips, |chips|)
  {
    if chips != [] {
      var n := |chips| - 1;
      ConcatSize(chips[..n]);
      StartOfPrefix(chips, n, n);
    }
  }

  /** Byte `k` of chip `i` is at the address where that chip begins, plus `k`. */
  lemma {:induction false} ConcatAt(chips: seq<seq<byte>>, i: nat, k: nat)
    requires i < |chips| && k < |chips[i]|
    ensures Start(chips, i) + k < |Concat(chips)| && Concat(chips)[Start(chips, i) + k] == chips[i][k]
    decreases |chips|
  {
    var n := |chips| - 1;
    ConcatSize(chips);
    ConcatSize(chips[..n]);
    StartOfPrefix(chips, n, n);
    StartOfPrefix(chips, n, i);
    if i < n {
      ConcatAt(chips[..n], i, k);
    }
  }

  /** Every address is on some chip. */
  lemma {:induction false} Locate(chips: seq<seq<byte>>, n: nat, a: nat) returns (i: nat)
    requires n <= |chips| && a < Start(chips, n)
    ensures i < n && Start(chips, i) <= a < Start(chips, i) + |chips[i]|
  {
    if a >= Start(chips, n - 1) {
      i := n - 1;
    } else {
      i := Locate(chips, n - 1, a);
    }
  }

  /** Sequences of the same sizes start at the same addresses. */
  lemma {:induction false} SameStarts(one: seq<seq<byte>>, two: seq<seq<byte>>, i: nat)
    requires |one| == |two| && i <= |one| && forall j :: 0 <= j < |one| ==> |one[j]| == |two[j]|
    ensures Start(one, i) == Start(two, i)
  {
    if i > 0 {
      SameStarts(one, two, i - 1);
    }
  }

  /** The bytes `d` are in `s` from `p` on. */
  ghost predicate Shows(s: seq<byte>, p: nat, d: seq<byte>) {
    p + |d| <= |s| && forall k :: 0 <= k < |d| ==> d[k] == s[p + k]
  }

  lemma ShowsNothing(s: seq<byte>, p: nat)
    requires p <= |s|
    ensures Shows(s, p, [])
  {
  }

  lemma ShowsMore(s: seq<byte>, p: nat, d: seq<byte>, e: seq<byte>)
    requires Shows(s, p, d) && Shows(s, p + |d|, e)
    ensures Shows(s, p, d + e)
  {
    forall k | |d| <= k < |d + e|
      ensures (d + e)[k] == s[p + k]
    {
      assert e[k - |d|] == s[p + |d| + (k - |d|)];
    }
  }

  lemma ShowsAll(s: seq<byte>, p: nat, d: seq<byte>)
    requires Shows(s, p, d)
    ensures p + |d| <= |s| && d == s[p..p + |d|]
  {
  }

  ghost function ContentsOf(chips: seq<array<byte>>): (r: seq<seq<byte>>)
    reads chips
    ensures |r| == |chips| && forall i :: 0 <= i < |chips| ==> r[i] == chips[i][..]
  {
    seq(|chips|, i requires 0 <= i < |chips| reads chips => chips[i][..])
  }

  class MultiSPIRAM {
    const chips: seq<array<byte>>
    const poolSize: nat

    /** The pool is as large as all the chips together. */
    constructor (chips: seq<array<byte>>)
      requires |chips| < 256 && Start(ContentsOf(chips), |chips|) < WORD
      ensures this.chips == chips && poolSize == |Pool()|
    {
      hide Concat;
      var ps := 0;
      var i := 0;
      ghost var all := ContentsOf(chips);
      while i < |chips|
        invariant 0 <= i <= |chips| && ps == Start(all, i)
      {
        StartsOrdered(all, i + 1, |chips|);
        ps := (ps + chips[i].Length) % WORD;
        i := i + 1;
      }
      this.chips := chips;
      poolSize := ps;
      new;
      ConcatSize(all);
    }

    ghost function Contents(): (r: seq<seq<byte>>)
      reads chips
      ensures |r| == |chips| && forall i :: 0 <= i < |chips| ==> r[i] == chips[i][..]
    {
      ContentsOf(chips)
    }

    /** The one address space the chips make up. */
    ghost function Pool(): seq<byte>
      reads chips
    {
      Concat(Contents())
    }

    ghost predicate Distinct() {
      |chips| < 256 && forall i, j :: 0 <= i < j < |chips| ==> chips[i] != chips[j]
    }

    ghost function Begin(i: nat): nat
      requires i <= |chips|
    {
      if i == 0 then 0 else Begin(i - 1) + chips[i - 1].Length
    }

    lemma {:induction false} BeginIsStart(i: nat)
      requires i <= |chips|
      ensures Begin(i) == Start(Contents(), i)
    {
      if i > 0 {
        BeginIsStart(i - 1);
      }
    }

    lemma {:induction false} Ordered(i: nat, j: nat)
      requires i <= j <= |chips|
      ensures Begin(i) <= Begin(j)
      decreases j
    {
      if i < j {
        Ordered(i, j - 1);
      }
    }

    lemma Begins(i: nat)
      requires i < |chips|
      ensures Begin(0) == 0 && Begin(i + 1) == Begin(i) + chips[i].Length <= Begin(|chips|)
    {
      Ordered(i + 1, |chips|);
    }

    /** Bytes of a chip, seen in the one address space. */
    lemma ChipShows(i: nat, p: nat, d: seq<byte>)
      requires i < |chips| && p + |d| <= chips[i].Length && d == chips[i][p..p + |d|]
      ensures Shows(Pool(), Begin(i) + p, d)
    {
      hide Concat, Begin;
      BeginIsStart(i);
      Begins(i);
      PoolSize();
      forall k | p <= k < p + |d|
        ensures Pool()[Begin(i) + k] == chips[i][k]
      {
        ConcatAt(Contents(), i, k);
      }
    }

    lemma PoolSize()
      ensures |Pool()| == Begin(|chips|)
    {
      BeginIsStart(|chips|);
      ConcatSize(Contents());
    }

    /** Reads across as many chips as the range spans: the same as one read of the pool. */
    method DoRead(offset: nat, size: nat) returns (data: seq<byte>)
      requires |chips| < 256 && offset + size <= |Pool()| < WORD
      ensures data == Pool()[offset..offset + size]
    {
      hide Begin, Concat, Shows;
      PoolSize();
      ghost var pool := Pool();
      ShowsNothing(pool, offset);
      data := [];
      var at: nat, left: nat := offset, size;
      var startptr: nat := 0;
      var i: nat := 0;
      if |chips| > 0 {
        Begins(0);
      } else {
        NoChips();
      }
      while i < |chips|
        invariant i <= |chips| && startptr == Begin(i) <= at && at + left == offset + size
        invariant |data| == at - offset && Shows(pool, offset, data)
      {
        Begins(i);
        var endptr := startptr + chips[i].Length;
        if at >= startptr && at < endptr {
          var p := at - startptr;
          var sz := if left < chips[i].Length - p then left else chips[i].Length - p;
          var d := chips[i][p..p + sz];
          ChipShows(i, p, d);
          ShowsMore(pool, offset, data, d);
          data := data + d;
          if sz == left {
            ShowsAll(pool, offset, data);
            return;
          }
          left := left - sz;
          at := at + sz;
        }
        startptr := endptr;
        i := i + 1;
      }
      ShowsAll(pool, offset, data);
    }

    lemma NoChips()
      ensures Begin(0) == 0
    {
    }

    /** Writes across as many chips as the range spans: the same as one store into the pool. */
    method DoWrite(data: seq<byte>, offset: nat)
      requires Distinct() && offset + |data| <= |Pool()| < WORD
      modifies chips
      ensures Stored(old(Pool()), offset, data, Pool())
    {
      hide Stored, StoredUpTo, Begin, Concat;
      PoolSize();
      NothingYet(data, offset);
      ghost var was := Contents();
      var at: nat, left: nat := offset, |data|;
      var startptr: nat := 0;
      var i: nat := 0;
      if |chips| > 0 {
        Begins(0);
      } else {
        NoChips();
      }
      while i < |chips|
        invariant i <= |chips| && startptr == Begin(i) <= at && at + left == offset + |data|
        invariant offset <= at && StoredUpTo(was, data, offset, at)
      {
        Begins(i);
        var endptr := startptr + chips[i].Length;
        if at >= startptr && at < endptr {
          var p := at - startptr;
          var sz := if left < chips[i].Length - p then left else chips[i].Length - p;
          WriteChip(i, p, data, offset, at, sz, was);
          if sz == left {
            StoredAll(was, data, offset);
            return;
          }
          left := left - sz;
          at := at + sz;
        }
        startptr := endptr;
        i := i + 1;
      }
      StoredAll(was, data, offset);
    }

    /** Of `data`, what belongs below address `at` is in place. */
    ghost predicate StoredUpTo(was: seq<seq<byte>>, data: seq<byte>, offset: nat, at: nat)
      reads chips
    {
      && SameSizes(was) && offset <= at <= offset + |data|
      && forall j: nat, k: nat {:trigger chips[j][k]} :: j < |chips| && k < chips[j].Length ==>
           chips[j][k] == if offset <= Begin(j) + k < at then data[Begin(j) + k - offset] else was[j][k]
    }

    ghost predicate SameSizes(was: seq<seq<byte>>) {
      |was| == |chips| && forall j :: 0 <= j < |chips| ==> |was[j]| == chips[j].Length
    }

    /** Stores into one chip the `sz` bytes of `data` that belong at address `at`. */
    method WriteChip(i: nat, p: nat, data: seq<byte>, offset: nat, at: nat, sz: nat, ghost was: seq<seq<byte>>)
      requires Distinct() && i < |chips| && p + sz <= chips[i].Length && offset <= at && at + sz <= offset + |data|
      requires Begin(i) + p == at && StoredUpTo(was, data, offset, at)
      modifies chips[i]
      ensures StoredUpTo(was, data, offset, at + sz)
    {
      var from := at - offset;
      forall k | 0 <= k < sz { chips[i][p + k] := data[from + k]; }
      forall j: nat, k: nat | j < |chips| && k < chips[j].Length
        ensures chips[j][k] == if offset <= Begin(j) + k < at + sz then data[Begin(j) + k - offset] else was[j][k]
      {
        assert old(chips[j][k]) == if offset <= Begin(j) + k < at then data[Begin(j) + k - offset] else was[j][k];
        if j < i {
          Ordered(j + 1, i);
        } else if i < j {
          Ordered(i + 1, j);
        }
      }
    }

    lemma NothingYet(data: seq<byte>, offset: nat)
      ensures StoredUpTo(Contents(), data, offset, offset)
    {
    }

    lemma StoredAll(was: seq<seq<byte>>, data: seq<byte>, offset: nat)
      requires StoredUpTo(was, data, offset, offset + |data|)
      ensures Stored(Concat(was), offset, data, Pool())
    {
      PoolSize();
      SameStarts(was, Contents(), |chips|);
      BeginIsStart(|chips|);
      ConcatSize(was);
      forall a: nat | a < |Pool()|
        ensures Pool()[a] == if offset <= a < offset + |data| then data[a - offset] else Concat(was)[a]
      {
        var i := Locate(Contents(), |chips|, a);
        BeginIsStart(i);
        SameStarts(was, Contents(), i);
        ConcatAt(Contents(), i, a - Begin(i));
        ConcatAt(was, i, a - Begin(i));
        assert chips[i][a - Begin(i)] == Pool()[a];
      }
    }
  }

  /** What is written can be read back, whichever chips it lies on. */
  method WriteThenRead(ram: MultiSPIRAM, d: seq<byte>, offset: nat) returns (r: seq<byte>)
    requires ram.Distinct() && offset + |d| <= |ram.Pool()| < WORD
    modifies ram.chips
    ensures r == d
  {
    ram.DoWrite(d, offset);
    r := ram.DoRead(offset, |d|);
  }
}
