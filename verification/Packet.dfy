/** Network packets: a list of fragments of buffers, the first of which may lie in a small
    area inside the packet itself. */
module Packets {
  import opened Utils

  type byte = b: nat | b < 256

  /** Bytes in order, built from the front. */
  datatype Text = Empty | Snoc(init: Text, last: byte)

  function Length(x: Text): nat {
    if x == Empty then 0 else Length(x.init) + 1
  }

  function ToSeq(x: Text): (r: seq<byte>)
    ensures |r| == Length(x)
  {
    if x == Empty then [] else ToSeq(x.init) + [x.last]
  }

  function Join(x: Text, y: Text): (r: Text)
    ensures Length(r) == Length(x) + Length(y)
  {
    if y == Empty then x else Snoc(Join(x, y.init), y.last)
  }

  lemma {:induction false} Associate(x: Text, y: Text, z: Text)
    ensures Join(Join(x, y), z) == Join(x, Join(y, z))
  {
    if z != Empty {
      Associate(x, y, z.init);
    }
  }

  lemma {:induction false} LeftUnit(x: Text)
    ensures Join(Empty, x) == x
  {
    if x != Empty {
      LeftUnit(x.init);
    }
  }

  lemma {:induction false} JoinToSeq(x: Text, y: Text)
    ensures ToSeq(Join(x, y)) == ToSeq(x) + ToSeq(y)
  {
    if y != Empty {
      JoinToSeq(x, y.init);
    }
  }

  lemma DropOf(x: Text, y: Text)
    ensures ToSeq(Join(x, y))[Length(x)..] == ToSeq(y)
  {
    JoinToSeq(x, y);
  }

  /** Dropping `x` and then `y` drops the first `n` bytes. */
  lemma {:induction false} DroppedFront(x: Text, y: Text, z: Text, after: Text, all: Text, n: nat)
    requires all == Join(x, after) && after == Join(y, z) && n == Length(x) + Length(y)
    ensures n <= |ToSeq(all)| && ToSeq(all)[n..] == ToSeq(z)
  {
    Associate(x, y, z);
    DropOf(Join(x, y), z);
  }

  lemma MiddleOf(x: Text, y: Text, z: Text, all: Text, from: nat, size: nat)
    requires all == Join(Join(x, y), z) && from == Length(x) && size == Length(y)
    ensures from + size <= |ToSeq(all)| && ToSeq(all)[from..from + size] == ToSeq(y)
  {
    JoinToSeq(x, y);
    JoinToSeq(Join(x, y), z);
  }

  const INTERNAL_DATA_SIZE: nat := 112
  const DEFAULT_NR_FRAGS: nat := 4

  /** `size` bytes from `base` on, in the packet's internal area or in a buffer that the
      packet's deleter keeps, whose contents are `store`. */
  datatype Fragment = Fragment(internal: bool, base: nat, size: nat, store: seq<byte>)

  /** The fragment lies within its storage. */
  predicate FragOk(f: Fragment, data: seq<byte>) {
    |data| == INTERNAL_DATA_SIZE && f.base + f.size <= if f.internal then INTERNAL_DATA_SIZE else |f.store|
  }

  /** `k` bytes of `s` from `a` on. */
  function Sub(s: seq<byte>, a: nat, k: nat): (r: Text)
    requires a + k <= |s|
    ensures Length(r) == k
  {
    if k == 0 then Empty else Snoc(Sub(s, a, k - 1), s[a + k - 1])
  }

  lemma {:induction false} SubIsSlice(s: seq<byte>, a: nat, k: nat)
    requires a + k <= |s|
    ensures ToSeq(Sub(s, a, k)) == s[a..a + k]
  {
    if k > 0 {
      SubIsSlice(s, a, k - 1);
    }
  }

  lemma {:induction false} SubSplit(s: seq<byte>, a: nat, k: nat, m: nat)
    requires a + k + m <= |s|
    ensures Sub(s, a, k + m) == Join(Sub(s, a, k), Sub(s, a + k, m))
  {
    if m > 0 {
      SubSplit(s, a, k, m - 1);
    }
  }

  ghost predicate SameAt(s: seq<byte>, a: nat, t: seq<byte>, b: nat, i: nat)
    requires a + i < |s| && b + i < |t|
  {
    s[a + i] == t[b + i]
  }

  lemma SameGrows(s: seq<byte>, a: nat, was: seq<byte>, now: seq<byte>, b: nat, n: nat)
    requires a + n < |s| && b + n < |was| == |now| && now == was[b + n := s[a + n]]
    requires forall i {:trigger SameAt(s, a, was, b, i)} :: 0 <= i < n ==> SameAt(s, a, was, b, i)
    ensures forall i {:trigger SameAt(s, a, now, b, i)} :: 0 <= i < n + 1 ==> SameAt(s, a, now, b, i)
  {
    forall i {:trigger SameAt(s, a, now, b, i)} | 0 <= i < n + 1
      ensures SameAt(s, a, now, b, i)
    {
      assert i < n ==> SameAt(s, a, was, b, i);
    }
  }

  lemma {:induction false} SubAgree(s: seq<byte>, a: nat, t: seq<byte>, b: nat, k: nat)
    requires a + k <= |s| && b + k <= |t|
    requires forall i {:trigger SameAt(s, a, t, b, i)} :: 0 <= i < k ==> SameAt(s, a, t, b, i)
    ensures Sub(s, a, k) == Sub(t, b, k)
  {
    if k > 0 {
      SubAgree(s, a, t, b, k - 1);
      assert SameAt(s, a, t, b, k - 1);
    }
  }

  ghost function FragBytes(f: Fragment, data: seq<byte>): (r: Text)
    ensures FragOk(f, data) ==> Length(r) == f.size
  {
    if !FragOk(f, data) then Empty
    else if f.internal then Sub(data, f.base, f.size)
    else Sub(f.store, f.base, f.size)
  }

  /** The bytes of the first `n` fragments. */
  ghost function BytesTo(fs: seq<Fragment>, data: seq<byte>, n: nat): Text
    requires n <= |fs|
  {
    if n == 0 then Empty else Join(BytesTo(fs, data, n - 1), FragBytes(fs[n - 1], data))
  }

  /** Lists whose first `n` fragments have the same bytes. */
  lemma {:induction false} Agree(a: seq<Fragment>, d: seq<byte>, b: seq<Fragment>, e: seq<byte>, n: nat)
    requires n <= |a| && n <= |b|
    requires forall i {:trigger a[i]} :: 0 <= i < n ==> FragBytes(a[i], d) == FragBytes(b[i], e)
    ensures BytesTo(a, d, n) == BytesTo(b, e, n)
  {
    if n > 0 {
      Agree(a, d, b, e, n - 1);
      assert FragBytes(a[n - 1], d) == FragBytes(b[n - 1], e);
    }
  }

  /** What comes after the first `i` of `j` fragments. */
  lemma {:induction false} TailTo(fs: seq<Fragment>, data: seq<byte>, i: nat, j: nat) returns (t: Text)
    requires i <= j <= |fs|
    ensures BytesTo(fs, data, j) == Join(BytesTo(fs, data, i), t)
    decreases j
  {
    if i == j {
      t := Empty;
    } else {
      var u := TailTo(fs, data, i, j - 1);
      t := Join(u, FragBytes(fs[j - 1], data));
      Associate(BytesTo(fs, data, i), u, FragBytes(fs[j - 1], data));
    }
  }

  /** `all` begins with the first `n` fragments of `a`; `k` fragments of `b` follow. */
  lemma {:induction false} Concat(all: seq<Fragment>, a: seq<Fragment>, n: nat, b: seq<Fragment>, data: seq<byte>, k: nat)
    requires n <= |a| && k <= |b| && n + k <= |all|
    requires forall i {:trigger a[i]} :: 0 <= i < n ==> a[i] == all[i]
    requires forall i {:trigger b[i]} :: 0 <= i < k ==> all[n + i] == b[i]
    ensures BytesTo(all, data, n + k) == Join(BytesTo(a, data, n), BytesTo(b, data, k))
  {
    if k == 0 {
      Agree(a, data, all, data, n);
    } else {
      Concat(all, a, n, b, data, k - 1);
      assert all[n + (k - 1)] == b[k - 1];
      Associate(BytesTo(a, data, n), BytesTo(b, data, k - 1), FragBytes(b[k - 1], data));
    }
  }

  /** Outside the internal area, or empty. */
  predicate External(f: Fragment) {
    f.internal ==> f.size == 0 && f.base == INTERNAL_DATA_SIZE
  }

  /** The bytes of external fragments do not depend on what the internal area holds. */
  lemma ExternalBytes(fs: seq<Fragment>, n: nat, d: seq<byte>, e: seq<byte>)
    requires |d| == |e| == INTERNAL_DATA_SIZE && n <= |fs|
    requires forall i {:trigger fs[i]} :: 0 <= i < n ==> External(fs[i])
    ensures BytesTo(fs, d, n) == BytesTo(fs, e, n)
  {
    Agree(fs, d, fs, e, n);
  }

  /** `gs` is `fs` without its first `i` fragments. */
  lemma {:induction false} DropFrags(fs: seq<Fragment>, gs: seq<Fragment>, data: seq<byte>, i: nat, n: nat)
    requires i + n <= |fs| && n <= |gs|
    requires forall j {:trigger gs[j]} :: 0 <= j < n ==> gs[j] == fs[i + j]
    ensures BytesTo(fs, data, i + n) == Join(BytesTo(fs, data, i), BytesTo(gs, data, n))
  {
    if n > 0 {
      DropFrags(fs, gs, data, i, n - 1);
      assert gs[n - 1] == fs[i + (n - 1)];
      Associate(BytesTo(fs, data, i), BytesTo(gs, data, n - 1), FragBytes(gs[n - 1], data));
    }
  }

  /** `k` bytes of a fragment, from its byte `a` on. */
  function Part(f: Fragment, a: nat, k: nat): Fragment {
    f.(base := f.base + a, size := k)
  }

  lemma PartBytes(f: Fragment, data: seq<byte>, a: nat, k: nat)
    requires FragOk(f, data) && a + k <= f.size
    ensures FragOk(Part(f, 0, a), data) && FragOk(Part(f, a, k), data) && FragOk(Part(f, 0, a + k), data)
    ensures FragBytes(Part(f, 0, a + k), data) == Join(FragBytes(Part(f, 0, a), data), FragBytes(Part(f, a, k), data))
  {
    SubSplit(if f.internal then data else f.store, f.base, a, k);
  }

  /** `cut` is `fs` without the first `k` bytes of its first fragment. */
  lemma {:induction false} CutFirst(fs: seq<Fragment>, cut: seq<Fragment>, data: seq<byte>, k: nat, n: nat)
    requires 0 < n <= |fs| && n <= |cut| && FragOk(fs[0], data) && k <= fs[0].size
    requires cut[0] == Part(fs[0], k, fs[0].size - k)
    requires forall j {:trigger cut[j]} :: 0 < j < n ==> cut[j] == fs[j]
    ensures BytesTo(fs, data, n) == Join(FragBytes(Part(fs[0], 0, k), data), BytesTo(cut, data, n))
  {
    var h := FragBytes(Part(fs[0], 0, k), data);
    if n == 1 {
      PartBytes(fs[0], data, k, fs[0].size - k);
      LeftUnit(FragBytes(fs[0], data));
      LeftUnit(FragBytes(cut[0], data));
      assert Part(fs[0], 0, fs[0].size) == fs[0];
    } else {
      CutFirst(fs, cut, data, k, n - 1);
      assert cut[n - 1] == fs[n - 1];
      Associate(h, BytesTo(cut, data, n - 1), FragBytes(fs[n - 1], data));
    }
  }

  // ----- the packet

  /** What the first `n` fragments and the internal area must agree on: only the first one may
      be in the area, and then it begins where the headroom ends. */
  ghost predicate Layout(fs: seq<Fragment>, n: nat, data: seq<byte>, headroom: nat) {
    && |data| == INTERNAL_DATA_SIZE && headroom <= INTERNAL_DATA_SIZE && n <= |fs|
    && (forall i {:trigger fs[i]} :: 0 <= i < n ==> FragOk(fs[i], data))
    && (forall i {:trigger fs[i]} :: 0 < i < n ==> External(fs[i]))
    && (n > 0 && fs[0].internal && fs[0].base < INTERNAL_DATA_SIZE ==> fs[0].base == headroom)
  }

  /** A packet with `rest` bytes less at the front of its first fragment, which has more. */
  lemma CutEffect(fs: seq<Fragment>, cut: seq<Fragment>, n: nat, d: seq<byte>, was: nat, headroom: nat, rest: nat, len: nat,
                  left: nat)
    returns (dropped: Text)
    requires 0 < n && Layout(fs, n, d, was) && |fs| < 0x1_0000 && 0 < rest < fs[0].size
    requires cut == fs[0 := Part(fs[0], rest, fs[0].size - rest)]
    requires headroom == if fs[0].internal && fs[0].base < INTERNAL_DATA_SIZE then was + rest else was
    requires rest + left == Length(BytesTo(fs, d, n)) && len == Low32(left)
    ensures Layout(cut, n, d, headroom) && Counts(|cut|, n, len, BytesTo(cut, d, n))
    ensures Length(dropped) == rest && BytesTo(fs, d, n) == Join(dropped, BytesTo(cut, d, n))
  {
    assert FragOk(fs[0], d);
    PartBytes(fs[0], d, 0, rest);
    dropped := FragBytes(Part(fs[0], 0, rest), d);
    CutFirst(fs, cut, d, rest, n);
  }

  /** All of the first `n` fragments are outside the internal area. */
  ghost predicate ExternalTo(fs: seq<Fragment>, n: nat) {
    n <= |fs| && forall i {:trigger fs[i]} :: 0 <= i < n ==> External(fs[i])
  }

  /** What a caller sees of a packet: its length, kept in 32 bits, and its bytes. */
  datatype View = View(len: nat, bytes: seq<byte>)

  predicate Exact(v: View) {
    v.len == |v.bytes|
  }

  /** The length is what 32 bits keep of the number of bytes. */
  predicate Kept(v: View) {
    v.len == Low32(|v.bytes|)
  }

  /** `append`: a packet of length zero is replaced. */
  function Appended(a: View, b: View): View {
    if a.len == 0 then b else View(Low32(a.len + b.len), a.bytes + b.bytes)
  }

  /** Appending is exact if and only if the bytes of both are fewer than 2^32; bytes are lost
      if and only if there were some and 32 bits kept none of them. */
  lemma AppendExact(a: View, b: View)
    requires Kept(a) && Kept(b)
    ensures Kept(Appended(a, b))
    ensures Exact(Appended(a, b)) && Appended(a, b).bytes == a.bytes + b.bytes <==> |a.bytes| + |b.bytes| < 0x1_0000_0000
    ensures Appended(a, b).bytes == a.bytes + b.bytes <==> a.len != 0 || a.bytes == []
  {
    Low32Sum(|a.bytes|, |b.bytes|);
    if a.len == 0 {
      assert Appended(a, b).bytes == a.bytes + b.bytes ==> |b.bytes| == |a.bytes| + |b.bytes|;
    }
  }

  /** Two packets of 2^31 bytes have length zero together, and the next `append` throws them
      away. */
  lemma AppendWrapExample(a: View, b: View, c: View)
    requires Exact(a) && Exact(b) && a.len == b.len == 0x8000_0000
    ensures Appended(a, b) == View(0, a.bytes + b.bytes) && Appended(Appended(a, b), c) == c
  {
    Low32Sum(0x8000_0000, 0x8000_0000);
  }

  /** Packets appended one after the other to an empty one. */
  function AppendedAll(ps: seq<View>): View {
    if ps == [] then View(0, []) else Appended(AppendedAll(ps[..|ps| - 1]), ps[|ps| - 1])
  }

  function AllBytes(ps: seq<View>): seq<byte> {
    if ps == [] then [] else AllBytes(ps[..|ps| - 1]) + ps[|ps| - 1].bytes
  }

  /** Any number of packets is joined, with the right length, if and only if their bytes are
      fewer than 2^32. */
  lemma {:induction false} AppendAllExact(ps: seq<View>)
    requires forall i :: 0 <= i < |ps| ==> Kept(ps[i])
    ensures Kept(AppendedAll(ps))
    ensures Exact(AppendedAll(ps)) && AppendedAll(ps).bytes == AllBytes(ps) <==> |AllBytes(ps)| < 0x1_0000_0000
  {
    if ps != [] {
      var init := ps[..|ps| - 1];
      AppendAllExact(init);
      AppendExact(AppendedAll(init), ps[|ps| - 1]);
    }
  }

  /** Room for `extra` fragments behind `nr`, of `space` that there are: they fit as it
      is, or in a larger array, of as many as 16 bits can count. */
  predicate Holds(space: nat, nr: nat, extra: nat) {
    nr + extra <= space || Max(nr + extra, 2 * nr) < 0x1_0000
  }

  /** Fragments that do not fit as it is are held if and only if 16 bits can count all of them
      and twice those there were. */
  lemma HoldsWhen(space: nat, nr: nat, extra: nat)
    requires nr + extra > space
    ensures Holds(space, nr, extra) <==> nr + extra <= 0xFFFF && nr <= 0x7FFF
  {
  }

  /** `nr` fragments in an array of `space`, both kept in 16 bits, with `text` the bytes
      and `len` what 32 bits keep of their number. */
  predicate Counts(space: nat, nr: nat, len: nat, text: Text) {
    nr <= space < 0x1_0000 && len == Low32(Length(text))
  }

  class Impl {
    const frags: array<Fragment>
    const data: array<byte>
    var nrFrags: nat
    var len: nat
    var headroom: nat

    ghost function Contents(): Text
      reads this, frags, data
    {
      if nrFrags <= frags.Length then BytesTo(frags[..], data[..], nrFrags) else Empty
    }

    ghost predicate Valid()
      reads this, frags, data
    {
      Layout(frags[..], nrFrags, data[..], headroom) && Counts(frags.Length, nrFrags, len, Contents())
    }

    /** No bytes in the internal area. */
    ghost predicate AllExternal()
      reads this, frags
    {
      ExternalTo(frags[..], nrFrags)
    }

    constructor (nr: nat)
      requires nr < 0x1_0000
      ensures Valid() && Contents() == Empty && nrFrags == 0 && frags.Length == Max(nr, DEFAULT_NR_FRAGS)
      ensures fresh(frags) && fresh(data) && headroom == INTERNAL_DATA_SIZE
    {
      frags := new Fragment[Max(nr, DEFAULT_NR_FRAGS)];
      data := new byte[INTERNAL_DATA_SIZE];
      nrFrags, len, headroom := 0, 0, INTERNAL_DATA_SIZE;
    }

    predicate UsingInternalData()
      requires nrFrags <= frags.Length
      reads this, frags
    {
      nrFrags > 0 && frags[0].internal && frags[0].base < INTERNAL_DATA_SIZE
    }

    /** Moves a first fragment in the internal area out to a buffer of its own. */
    method UnuseInternalData()
      requires Valid()
      modifies this`headroom, frags
      ensures Valid() && AllExternal() && Contents() == old(Contents())
    {
      if !UsingInternalData() {
        return;
      }
      var f := frags[0];
      var buf := data[f.base..f.base + f.size];
      ghost var fs := frags[..];
      SubAgree(data[..], f.base, buf, 0, f.size);
      frags[0] := Fragment(false, 0, f.size, buf);
      headroom := INTERNAL_DATA_SIZE;
      Agree(fs, data[..], frags[..], data[..], nrFrags);
    }

    /** A copy with room for `nr` fragments; the internal fragment moves to the copy's own
        area. */
    method Copy(nr: nat) returns (n: Impl)
      requires Valid() && nrFrags <= Max(nr, DEFAULT_NR_FRAGS) && nr < 0x1_0000
      ensures fresh(n) && fresh(n.frags) && fresh(n.data)
      ensures n.Valid() && n.Contents() == Contents() && n.frags.Length == Max(nr, DEFAULT_NR_FRAGS)
      ensures n.nrFrags == nrFrags && n.len == len
      ensures AllExternal() ==> n.AllExternal()
    {
      n := new Impl(nr);
      n.len, n.nrFrags, n.headroom := len, nrFrags, headroom;
      CopyFrags(n);
      if !UsingInternalData() {
        Agree(frags[..], data[..], n.frags[..], n.data[..], nrFrags);
        return;
      }
      CopyInternalFragmentTo(n);
    }

    method CopyFrags(n: Impl)
      requires nrFrags <= frags.Length && nrFrags <= n.frags.Length && n.frags != frags
      modifies n.frags
      ensures forall i :: 0 <= i < nrFrags ==> n.frags[i] == frags[i]
    {
      for i := 0 to nrFrags
        invariant forall j :: 0 <= j < i ==> n.frags[j] == frags[j]
      {
        n.frags[i] := frags[i];
      }
    }

    method CopyInternalFragmentTo(to: Impl)
      requires Valid() && UsingInternalData() && to != this && to.frags != frags && to.data != data
      requires to.nrFrags == nrFrags <= to.frags.Length && to.headroom == headroom
      requires forall i :: 0 <= i < nrFrags ==> to.frags[i] == frags[i]
      requires to.data.Length == INTERNAL_DATA_SIZE && to.len == len && to.frags.Length < 0x1_0000
      modifies to.frags, to.data
      ensures to.Valid() && to.Contents() == Contents()
    {
      var f := frags[0];
      to.frags[0] := to.frags[0].(base := headroom);
      for i := 0 to f.size
        modifies to.data
        invariant forall j {:trigger SameAt(data[..], f.base, to.data[..], headroom, j)} :: 0 <= j < i ==>
          SameAt(data[..], f.base, to.data[..], headroom, j)
      {
        ghost var was := to.data[..];
        to.data[headroom + i] := data[f.base + i];
        SameGrows(data[..], f.base, was, to.data[..], headroom, i);
      }
      SubAgree(data[..], f.base, to.data[..], headroom, f.size);
      Agree(frags[..], data[..], to.frags[..], to.data[..], nrFrags);
    }

    /** `packet(fragment)`: the first bytes of an empty packet. */
    method CopyIn(bytes: seq<byte>)
      requires Valid() && nrFrags == 0 && frags.Length > 0 && headroom == INTERNAL_DATA_SIZE
      modifies this, frags, data
      ensures Valid() && ToSeq(Contents()) == bytes && len == Low32(|bytes|)
    {
      var size := |bytes|;
      SubIsSlice(bytes, 0, size);
      assert bytes[0..size] == bytes;
      if size <= INTERNAL_DATA_SIZE {
        headroom := headroom - size;
        frags[0] := Fragment(true, headroom, size, []);
        for i := 0 to size
          modifies data
          invariant forall j {:trigger SameAt(bytes, 0, data[..], headroom, j)} :: 0 <= j < i ==>
            SameAt(bytes, 0, data[..], headroom, j)
        {
          ghost var was := data[..];
          data[headroom + i] := bytes[i];
          SameGrows(bytes, 0, was, data[..], headroom, i);
        }
        SubAgree(bytes, 0, data[..], headroom, size);
      } else {
        frags[0] := Fragment(false, 0, size, bytes);
      }
      nrFrags, len := 1, Low32(size);
      LeftUnit(FragBytes(frags[0], data[..]));
      assert Contents() == Join(BytesTo(frags[..], data[..], 0), FragBytes(frags[..][0], data[..]));
    }

    /** `std::copy(frags + i, frags + nr_frags, frags)`. */
    method ShiftDown(i: nat)
      requires i <= nrFrags <= frags.Length
      modifies this`nrFrags, frags
      ensures nrFrags == old(nrFrags) - i && forall j :: 0 <= j < nrFrags ==> frags[j] == old(frags[i + j])
    {
      ghost var fs := frags[..];
      for j := i to nrFrags
        modifies frags
        invariant forall k :: 0 <= k < j - i ==> frags[k] == fs[i + k]
        invariant forall k :: j <= k < nrFrags ==> frags[k] == fs[k]
      {
        frags[j - i] := frags[j];
      }
      nrFrags := nrFrags - i;
    }

    /** How many whole fragments the first `howMuch` bytes take, and the bytes of the next. */
    method WholeFragments(howMuch: nat) returns (i: nat, rest: nat)
      requires Layout(frags[..], nrFrags, data[..], headroom) && howMuch <= Length(Contents())
      ensures i <= nrFrags && rest + Length(BytesTo(frags[..], data[..], i)) == howMuch
      ensures rest > 0 ==> i < nrFrags && rest < frags[i].size
    {
      ghost var fs, d := frags[..], data[..];
      rest, i := howMuch, 0;
      while rest > 0 && rest >= frags[i].size
        invariant i <= nrFrags && rest + Length(BytesTo(fs, d, i)) == howMuch
        invariant rest > 0 ==> i < nrFrags
        decreases nrFrags - i, rest
      {
        assert FragOk(fs[i], d);
        ghost var t := TailTo(fs, d, i + 1, nrFrags);
        rest, i := rest - frags[i].size, i + 1;
      }
    }

    method TrimFront(howMuch: nat)
      requires Valid() && howMuch <= len
      modifies this, frags
      ensures Valid() && ToSeq(Contents()) == ToSeq(old(Contents()))[howMuch..]
    {
      ghost var was := Contents();
      ghost var left := Length(was) - howMuch;
      Low32Less(Length(was), howMuch);
      len := len - howMuch;
      assert len == Low32(left);
      var i, rest := WholeFragments(howMuch);
      ghost var before := DropWhole(i);
      ghost var after := Contents();
      assert Length(before) + rest == howMuch;
      ghost var dropped := CutFront(rest, left);
      DroppedFront(before, dropped, Contents(), after, was, howMuch);
    }

    /** The first `i` fragments go. */
    method DropWhole(i: nat) returns (ghost before: Text)
      requires Layout(frags[..], nrFrags, data[..], headroom) && i <= nrFrags
      modifies this`nrFrags, frags
      ensures Layout(frags[..], nrFrags, data[..], headroom) && nrFrags == old(nrFrags) - i
      ensures before == BytesTo(old(frags[..]), data[..], i) && old(Contents()) == Join(before, Contents())
      ensures nrFrags > 0 ==> frags[0] == old(frags[i])
    {
      ghost var fs, d := frags[..], data[..];
      before := BytesTo(fs, d, i);
      ShiftDown(i);
      DropFrags(fs, frags[..], d, i, nrFrags);
    }

    /** Cuts `rest` bytes off the first fragment; `left` are left. */
    method CutFront(rest: nat, ghost left: nat) returns (ghost dropped: Text)
      requires Layout(frags[..], nrFrags, data[..], headroom) && frags.Length < 0x1_0000
      requires rest + left == Length(Contents()) && len == Low32(left)
      requires rest > 0 ==> nrFrags > 0 && rest < frags[0].size
      modifies this`headroom, frags
      ensures Valid() && Length(dropped) == rest && old(Contents()) == Join(dropped, Contents())
    {
      if !UsingInternalData() {
        headroom := INTERNAL_DATA_SIZE;
      }
      if rest == 0 {
        LeftUnit(Contents());
        return Empty;
      }
      dropped := CutPart(rest, left);
    }

    /** Cuts some, but not all, bytes off the first fragment. */
    method CutPart(rest: nat, ghost left: nat) returns (ghost dropped: Text)
      requires Layout(frags[..], nrFrags, data[..], headroom) && 0 < nrFrags && 0 < rest < frags[0].size
      requires frags.Length < 0x1_0000
      requires rest + left == Length(Contents()) && len == Low32(left)
      modifies this`headroom, frags
      ensures Valid() && Length(dropped) == rest && old(Contents()) == Join(dropped, Contents())
    {
      ghost var fs, h := frags[..], headroom;
      var f := frags[0];
      headroom := if UsingInternalData() then headroom + rest else headroom;
      frags[0] := f.(base := f.base + rest, size := f.size - rest);
      dropped := CutEffect(fs, frags[..], nrFrags, data[..], h, headroom, rest, len, left);
    }

    /** `std::copy(p.frags, p.frags + p.nr_frags, frags + nr_frags)`. */
    method CopyBehind(p: Impl)
      requires p != this && p.frags != frags && p.nrFrags <= p.frags.Length && nrFrags + p.nrFrags <= frags.Length
      modifies this`nrFrags, frags
      ensures nrFrags == old(nrFrags) + p.nrFrags
      ensures forall i :: 0 <= i < old(nrFrags) ==> frags[i] == old(frags[i])
      ensures forall i :: 0 <= i < p.nrFrags ==> frags[old(nrFrags) + i] == p.frags[i]
    {
      for i := 0 to p.nrFrags
        modifies frags
        invariant forall j :: 0 <= j < nrFrags ==> frags[j] == old(frags[j])
        invariant forall j :: 0 <= j < i ==> frags[nrFrags + j] == p.frags[j]
      {
        frags[nrFrags + i] := p.frags[i];
      }
      nrFrags := nrFrags + p.nrFrags;
    }

    /** Appends the fragments of `p`, none of which is in its internal area. */
    method AppendFrags(p: Impl)
      requires Valid() && p.Valid() && p.AllExternal() && p != this && p.frags != frags
      requires nrFrags > 0 && nrFrags + p.nrFrags <= frags.Length
      modifies this`nrFrags, this`len, frags
      ensures Valid() && Contents() == Join(old(Contents()), p.Contents()) && len == Low32(old(len) + p.len)
    {
      ghost var fs, d, n := frags[..], data[..], nrFrags;
      ghost var b, e, k := p.frags[..], p.data[..], p.nrFrags;
      CopyBehind(p);
      ghost var all := frags[..];
      assert data[..] == d && p.frags[..] == b && nrFrags == n + k;
      assert forall i :: 0 <= i < n ==> all[i] == fs[i];
      assert forall i :: 0 <= i < k ==> all[n + i] == b[i];
      AppendEffect(fs, n, all, b, k, d, e, headroom, len, p.len);
      len := Low32(len + p.len);
    }

    /** Appends what `p` has, moved out of its internal area. */
    method Absorb(p: Impl)
      requires Valid() && p.Valid() && p != this && p.frags != frags && p.data != data
      requires nrFrags > 0 && nrFrags + p.nrFrags <= frags.Length
      modifies this`nrFrags, this`len, frags, p`headroom, p.frags
      ensures Valid() && len == Low32(old(len) + p.len)
      ensures ToSeq(Contents()) == ToSeq(old(Contents())) + ToSeq(old(p.Contents()))
    {
      p.UnuseInternalData();
      JoinToSeq(Contents(), p.Contents());
      AppendFrags(p);
    }

    /** Fills this empty packet with the bytes of `src` from `offset` on. */
    method ShareFrom(src: Impl, offset: nat, size: nat)
      requires Valid() && nrFrags == 0 && len == 0 && src != this && src.frags != frags
      requires src.Valid() && src.AllExternal() && offset + size <= Length(src.Contents()) && src.nrFrags <= frags.Length
      requires size < 0x1_0000_0000
      modifies this`nrFrags, this`len, frags
      ensures Valid() && AllExternal() && len == size && ToSeq(Contents()) == ToSeq(src.Contents())[offset..offset + size]
    {
      ghost var fs, d := src.frags[..], src.data[..];
      var idx: nat, off: nat := src.WholeFragments(offset);
      ghost var pre := AtPosition(fs, src.nrFrags, d, idx, off);
      ghost var rest := RestFrom(fs, src.nrFrags, d, idx, off, pre);
      ghost var post := ShareFragments(src.frags, src.nrFrags, idx, off, size, fs, d, pre, rest);
      MiddleOf(pre, Contents(), post, src.Contents(), offset, size);
    }

    /** `pre` is what `from` has before the place to start at, `rest` what it has from there on. */
    method ShareFragments(from: array<Fragment>, nr: nat, start: nat, skip: nat, size: nat, ghost fs: seq<Fragment>,
                          ghost d: seq<byte>, ghost pre: Text, ghost rest: Text) returns (ghost post: Text)
      requires from != frags && from[..] == fs && nr <= |fs| && ExternalOk(fs, nr, d)
      requires Valid() && AllExternal() && nrFrags == 0 && len == 0 && nr <= frags.Length
      requires AtByte(fs, nr, d, start, skip, pre) && Length(pre) + size <= Length(BytesTo(fs, d, nr))
      requires BytesTo(fs, d, nr) == Join(Join(pre, Contents()), rest) && size < 0x1_0000_0000
      modifies this`nrFrags, this`len, frags
      ensures Valid() && AllExternal() && len == Length(Contents()) == size
      ensures BytesTo(fs, d, nr) == Join(Join(pre, Contents()), post)
    {
      var idx, off := start, skip;
      post := rest;
      while len < size
        modifies this`nrFrags, this`len, frags
        invariant len < size ==> AtByte(fs, nr, d, idx, off, Join(pre, Contents()))
        invariant nrFrags <= idx <= nr && len == Length(Contents()) <= size
        invariant Valid() && AllExternal() && BytesTo(fs, d, nr) == Join(Join(pre, Contents()), post)
        decreases nr - idx
      {
        MoreFrags(fs, nr, d, idx, off, Join(pre, Contents()));
        post := ShareOne(from[idx], off, size, fs, nr, d, idx, pre);
        idx, off := idx + 1, 0;
      }
    }

    /** Takes over what is needed of fragment `f`, from `off` on; `f` is fragment `idx` of the
        packet `fs` being shared. */
    method ShareOne(f: Fragment, off: nat, size: nat, ghost fs: seq<Fragment>, ghost nr: nat, ghost d: seq<byte>,
                    ghost idx: nat, ghost pre: Text) returns (ghost post: Text)
      requires Valid() && AllExternal() && len == Length(Contents()) < size < 0x1_0000_0000 && nrFrags < frags.Length
      requires idx < nr <= |fs| && fs[idx] == f && ExternalOk(fs, nr, d)
      requires AtByte(fs, nr, d, idx, off, Join(pre, Contents()))
      modifies this`nrFrags, this`len, frags
      ensures Valid() && AllExternal() && nrFrags == old(nrFrags) + 1 && len == Length(Contents()) <= size
      ensures len < size ==> AtByte(fs, nr, d, idx + 1, 0, Join(pre, Contents()))
      ensures BytesTo(fs, d, nr) == Join(Join(pre, Contents()), post)
    {
      assert FragOk(f, d) && External(f);
      var fsize := Min(size - len, f.size - off);
      var g := f.(base := f.base + off, size := fsize);
      SameOutside(f, d, data[..], off, fsize);
      post := ShareStep(fs, nr, d, idx, off, fsize, Join(pre, Contents()));
      Associate(pre, Contents(), FragBytes(g, d));
      Push(g);
    }

    /** One more fragment, outside the internal area. */
    method Push(f: Fragment)
      requires Valid() && AllExternal() && nrFrags < frags.Length && External(f) && FragOk(f, data[..])
      modifies this`nrFrags, this`len, frags
      ensures Valid() && AllExternal() && nrFrags == old(nrFrags) + 1
      ensures len == Low32(old(len) + f.size) && Contents() == Join(old(Contents()), FragBytes(f, data[..]))
    {
      ghost var fs := frags[..];
      frags[nrFrags] := f;
      Agree(fs, data[..], frags[..], data[..], nrFrags);
      Low32Sum(Length(BytesTo(fs, data[..], nrFrags)), f.size);
      nrFrags, len := nrFrags + 1, Low32(len + f.size);
    }
  }

  class Packet {
    var impl: Impl

    ghost predicate Valid()
      reads this, impl, impl.frags, impl.data
    {
      impl.Valid()
    }

    ghost function Contents(): seq<byte>
      reads this, impl, impl.frags, impl.data
    {
      ToSeq(impl.Contents())
    }

    ghost function Seen(): View
      reads this, impl, impl.frags, impl.data
    {
      View(impl.len, Contents())
    }

    constructor (nr: nat := 1)
      requires nr < 0x1_0000
      ensures Valid() && impl.Contents() == Empty && impl.AllExternal() && impl.nrFrags == 0 && impl.len == 0
      ensures impl.frags.Length == Max(nr, DEFAULT_NR_FRAGS)
      ensures fresh(impl) && fresh(impl.frags) && fresh(impl.data)
    {
      impl := new Impl(nr);
    }

    /** Copies the data into the packet, into the internal area if it fits there. */
    constructor FromData(bytes: seq<byte>)
      ensures Valid() && Contents() == bytes && Kept(Seen())
      ensures Exact(Seen()) <==> |bytes| < 0x1_0000_0000
      ensures fresh(impl) && fresh(impl.frags) && fresh(impl.data)
    {
      impl := new Impl(DEFAULT_NR_FRAGS);
      new;
      impl.CopyIn(bytes);
    }

    /** Makes room for `extra` more fragments. The source asserts that 16 bits can count the
        fragments to allocate; `ok` tells whether they can. */
    method AllocateIfNeeded(extra: nat) returns (ok: bool)
      requires Valid()
      modifies this
      ensures ok <==> Holds(old(impl.frags).Length, old(impl.nrFrags), extra)
      ensures Valid() && impl.Contents() == old(impl.Contents()) && impl.nrFrags == old(impl.nrFrags) && impl.len == old(impl.len)
      ensures if ok then impl.nrFrags + extra <= impl.frags.Length else impl == old(impl)
      ensures old(impl.nrFrags) + extra <= old(impl).frags.Length ==> impl == old(impl)
      ensures old(impl.nrFrags) + extra > old(impl).frags.Length && ok ==>
        impl.frags.Length == Max(Max(impl.nrFrags + extra, 2 * impl.nrFrags), DEFAULT_NR_FRAGS)
      ensures impl == old(impl) || (fresh(impl) && fresh(impl.frags) && fresh(impl.data))
      ensures old(impl.AllExternal()) ==> impl.AllExternal()
    {
      if impl.frags.Length >= impl.nrFrags + extra {
        return true;
      }
      var nr := Max(impl.nrFrags + extra, 2 * impl.nrFrags);
      if nr >= 0x1_0000 {
        return false;
      }
      impl := impl.Copy(nr);
      return true;
    }

    /** Drops `howMuch` bytes from the front. */
    method TrimFront(howMuch: nat)
      requires Valid() && howMuch <= impl.len
      modifies impl, impl.frags
      ensures Valid() && Seen() == View(old(impl.len) - howMuch, old(Contents())[howMuch..])
    {
      impl.TrimFront(howMuch);
    }

    /** A packet that shares the bytes from `offset` on; this one keeps its contents, but has
        none of them in its internal area any more. */
    method Share(offset: nat, len: nat) returns (n: Packet)
      requires Valid() && offset + len <= |Contents()| && len < 0x1_0000_0000
      modifies impl`headroom, impl.frags
      ensures Valid() && Seen() == old(Seen()) && impl.AllExternal()
      ensures fresh(n) && fresh(n.impl) && fresh(n.impl.frags) && fresh(n.impl.data)
      ensures n.Valid() && n.impl.AllExternal()
      ensures n.Seen() == View(len, old(Contents())[offset..offset + len])
    {
      impl.UnuseInternalData();
      n := new Packet();
      var ok := n.AllocateIfNeeded(impl.nrFrags);
      n.impl.ShareFrom(impl, offset, len);
    }

    /** Puts the bytes of `p` behind those of this packet; `p` is used up. Only an array of
        fragments that 16 bits cannot count stops it. */
    method Append(p: Packet) returns (ok: bool)
      requires Valid() && p.Valid() && p != this && p.impl != impl
      requires p.impl.frags != impl.frags && p.impl.data != impl.data
      modifies this, impl, impl.frags, p.impl, p.impl.frags
      ensures ok <==> old(impl.len) == 0 || Holds(old(impl.frags).Length, old(impl.nrFrags), old(p.impl.nrFrags))
      ensures Valid() && Seen() == if ok then Appended(old(Seen()), old(p.Seen())) else old(Seen())
    {
      if impl.len == 0 {
        impl := p.impl;
        return true;
      }
      ok := AllocateIfNeeded(p.impl.nrFrags);
      if !ok {
        return;
      }
      impl.Absorb(p.impl);
    }
  }

  /** The fragments of `b`, all of them external, behind those of `a`. */
  lemma AppendLayout(a: seq<Fragment>, n: nat, all: seq<Fragment>, b: seq<Fragment>, k: nat, d: seq<byte>, e: seq<byte>,
                     headroom: nat)
    requires 0 < n && Layout(a, n, d, headroom) && k <= |b| && n + k <= |all| && |e| == INTERNAL_DATA_SIZE
    requires forall i {:trigger b[i]} :: 0 <= i < k ==> External(b[i]) && FragOk(b[i], e)
    requires forall i {:trigger all[i]} :: 0 <= i < n ==> all[i] == a[i]
    requires forall i {:trigger b[i]} :: 0 <= i < k ==> all[n + i] == b[i]
    ensures Layout(all, n + k, d, headroom)
  {
    forall i {:trigger all[i]} | 0 <= i < n + k
      ensures FragOk(all[i], d) && (i > 0 ==> External(all[i]))
    {
      if i < n {
        assert all[i] == a[i];
      } else {
        assert all[n + (i - n)] == b[i - n];
      }
    }
    assert all[0] == a[0];
  }

  /** They are a packet whose bytes are those of `a`, then those of `b`. */
  lemma AppendEffect(a: seq<Fragment>, n: nat, all: seq<Fragment>, b: seq<Fragment>, k: nat, d: seq<byte>, e: seq<byte>,
                     headroom: nat, len: nat, more: nat)
    requires 0 < n && Layout(a, n, d, headroom) && n + k <= |all| < 0x1_0000 && |e| == INTERNAL_DATA_SIZE && ExternalOk(b, k, e)
    requires len == Low32(Length(BytesTo(a, d, n))) && more == Low32(Length(BytesTo(b, e, k)))
    requires forall i {:trigger all[i]} :: 0 <= i < n ==> all[i] == a[i]
    requires forall i {:trigger b[i]} :: 0 <= i < k ==> all[n + i] == b[i]
    ensures Layout(all, n + k, d, headroom)
    ensures BytesTo(all, d, n + k) == Join(BytesTo(a, d, n), BytesTo(b, e, k))
    ensures Counts(|all|, n + k, Low32(len + more), BytesTo(all, d, n + k))
  {
    Low32Sum(Length(BytesTo(a, d, n)), Length(BytesTo(b, e, k)));
    AppendLayout(a, n, all, b, k, d, e, headroom);
    Concat(all, a, n, b, d, k);
    ExternalBytes(b, k, e, d);
  }

  /** `pre` is what the first `n` fragments have before byte `off` of fragment `idx`, which has
      such a byte or begins there. */
  ghost predicate AtByte(fs: seq<Fragment>, n: nat, d: seq<byte>, idx: nat, off: nat, pre: Text) {
    && idx <= n <= |fs| && (off > 0 ==> idx < n && off < fs[idx].size)
    && pre == if off == 0 then BytesTo(fs, d, idx) else Join(BytesTo(fs, d, idx), FragBytes(Part(fs[idx], 0, off), d))
  }

  ghost predicate ExternalOk(fs: seq<Fragment>, n: nat, d: seq<byte>) {
    n <= |fs| && forall i {:trigger fs[i]} :: 0 <= i < n ==> External(fs[i]) && FragOk(fs[i], d)
  }

  lemma AtPosition(fs: seq<Fragment>, n: nat, d: seq<byte>, idx: nat, off: nat) returns (pre: Text)
    requires idx <= n && (off > 0 ==> idx < n <= |fs| && off < fs[idx].size) && ExternalOk(fs, n, d)
    ensures AtByte(fs, n, d, idx, off, pre) && Length(pre) == Length(BytesTo(fs, d, idx)) + off
  {
    if off > 0 {
      assert FragOk(fs[idx], d);
      PartBytes(fs[idx], d, 0, off);
    }
    pre := if off == 0 then BytesTo(fs, d, idx) else Join(BytesTo(fs, d, idx), FragBytes(Part(fs[idx], 0, off), d));
  }

  lemma RestFrom(fs: seq<Fragment>, n: nat, d: seq<byte>, idx: nat, off: nat, pre: Text) returns (post: Text)
    requires AtByte(fs, n, d, idx, off, pre) && ExternalOk(fs, n, d)
    ensures BytesTo(fs, d, n) == Join(pre, post)
  {
    if off == 0 {
      post := TailTo(fs, d, idx, n);
    } else {
      assert FragOk(fs[idx], d);
      post := ShareStep(fs, n, d, idx, off, 0, pre);
    }
  }

  lemma MoreFrags(fs: seq<Fragment>, n: nat, d: seq<byte>, idx: nat, off: nat, pre: Text)
    requires AtByte(fs, n, d, idx, off, pre) && Length(pre) < Length(BytesTo(fs, d, n))
    ensures idx < n
  {
  }

  /** Sharing `k` bytes of fragment `idx`, from `off` on, moves the position on by them. */
  lemma ShareStep(fs: seq<Fragment>, n: nat, d: seq<byte>, idx: nat, off: nat, k: nat, pre: Text) returns (post: Text)
    requires idx < n <= |fs| && FragOk(fs[idx], d) && off + k <= fs[idx].size && AtByte(fs, n, d, idx, off, pre)
    ensures BytesTo(fs, d, n) == Join(Join(pre, FragBytes(Part(fs[idx], off, k), d)), post)
    ensures off + k == fs[idx].size ==> AtByte(fs, n, d, idx + 1, 0, Join(pre, FragBytes(Part(fs[idx], off, k), d)))
  {
    var f := fs[idx];
    var h, y, t := ThreeParts(f, d, off, k);
    var tail := TailTo(fs, d, idx + 1, n);
    assert pre == Join(BytesTo(fs, d, idx), h);
    Regroup(BytesTo(fs, d, idx), h, y, t, tail);
    post := Join(t, tail);
  }

  lemma ThreeParts(f: Fragment, d: seq<byte>, off: nat, k: nat) returns (h: Text, y: Text, t: Text)
    requires FragOk(f, d) && off + k <= f.size
    ensures h == FragBytes(Part(f, 0, off), d) && y == FragBytes(Part(f, off, k), d)
    ensures off == 0 ==> h == Empty
    ensures FragBytes(f, d) == Join(Join(h, y), t) && (off + k == f.size ==> t == Empty)
  {
    h, y, t := FragBytes(Part(f, 0, off), d), FragBytes(Part(f, off, k), d), FragBytes(Part(f, off + k, f.size - off - k), d);
    PartBytes(f, d, off, k);
    PartBytes(f, d, off + k, f.size - off - k);
    assert Part(f, 0, f.size) == f;
  }

  lemma Regroup(b: Text, h: Text, y: Text, t: Text, z: Text)
    ensures Join(Join(b, Join(Join(h, y), t)), z) == Join(Join(Join(b, h), y), Join(t, z))
    ensures t == Empty ==> Join(b, Join(Join(h, y), t)) == Join(Join(b, h), y)
  {
    Associate(b, Join(h, y), t);
    Associate(b, h, y);
    Associate(Join(Join(b, h), y), t, z);
  }

  lemma SameOutside(f: Fragment, d: seq<byte>, e: seq<byte>, off: nat, k: nat)
    requires External(f) && FragOk(f, d) && off + k <= f.size && |e| == INTERNAL_DATA_SIZE
    ensures External(Part(f, off, k)) && FragOk(Part(f, off, k), e)
    ensures FragBytes(Part(f, off, k), d) == FragBytes(Part(f, off, k), e)
  {
  }
}
