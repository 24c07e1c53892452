/**
 Copying between a flat buffer and the scatter-gather list of a SCSI command (USB/protocol.c).
 Physical memory is one byte array; entry e covers the bytes from e.page * PAGE_SIZE + e.offset on,
 over as many consecutive pages as it needs. A cursor (sg, offset) points into the list, sg being an
 index; sg == |list| is the NULL pointer, which the next call takes for the head of the list.
*/
module XferBuf {
  import opened Common

  const PAGE_SIZE: nat := 4096

  datatype SgEntry = SgEntry(page: nat, offset: nat, length: nat)

  datatype Cursor = Cursor(sg: nat, offset: nat)

  datatype Direction = ToXferBuf | FromXferBuf

  function Base(e: SgEntry): nat {
    e.page * PAGE_SIZE + e.offset
  }

  ghost predicate CursorOk(sgl: seq<SgEntry>, c: Cursor) {
    c.sg <= |sgl| && (c.sg < |sgl| ==> c.offset <= sgl[c.sg].length) && (c.sg == |sgl| ==> c.offset == 0)
  }

  ghost predicate Mapped(sgl: seq<SgEntry>, size: nat) {
    forall e :: e in sgl ==> Base(e) + e.length <= size
  }

  // ---------------------------------------------------------------------------------------------
  // The specification: one flat sequence of addresses
  // ---------------------------------------------------------------------------------------------

  ghost function Range(a: nat, n: nat): (r: seq<nat>)
    ensures |r| == n
  {
    seq(n, i requires 0 <= i => a + i)
  }

  /** The addresses of the list from a position on. */
  ghost function Rest(sgl: seq<SgEntry>, c: Cursor): seq<nat>
    requires CursorOk(sgl, c)
    decreases |sgl| - c.sg
  {
    if c.sg == |sgl| then []
    else Range(Base(sgl[c.sg]) + c.offset, sgl[c.sg].length - c.offset) + Rest(sgl, Cursor(c.sg + 1, 0))
  }

  /** A NULL cursor stands for the head of the list. */
  function Resume(sgl: seq<SgEntry>, c: Cursor): Cursor {
    if c.sg == |sgl| then Cursor(0, c.offset) else c
  }

  ghost function Ahead(sgl: seq<SgEntry>, c: Cursor): seq<nat>
    requires CursorOk(sgl, c)
  {
    Rest(sgl, Resume(sgl, c))
  }

  /** Where a copy of n bytes leaves the cursor. */
  function Advance(sgl: seq<SgEntry>, c: Cursor, n: nat): Cursor
    requires c.sg <= |sgl| && (c.sg < |sgl| ==> c.offset <= sgl[c.sg].length)
    decreases |sgl| - c.sg
  {
    if n == 0 || c.sg == |sgl| then c
    else
      var left := sgl[c.sg].length - c.offset;
      if left > n then Cursor(c.sg, c.offset + n) else Advance(sgl, Cursor(c.sg + 1, 0), n - left)
  }

  ghost predicate Within(addrs: seq<nat>, size: nat) {
    forall i :: 0 <= i < |addrs| ==> addrs[i] < size
  }

  /** Memory after writing data to the addresses one after the other. */
  ghost function WriteAll(mem: seq<byte>, addrs: seq<nat>, data: seq<byte>): (m: seq<byte>)
    requires |addrs| == |data| && Within(addrs, |mem|)
    ensures |m| == |mem|
    decreases |addrs|
  {
    if addrs == [] then mem else WriteAll(mem[addrs[0] := data[0]], addrs[1..], data[1..])
  }

  ghost function ReadAll(mem: seq<byte>, addrs: seq<nat>): (d: seq<byte>)
    requires Within(addrs, |mem|)
    ensures |d| == |addrs|
  {
    seq(|addrs|, i requires 0 <= i < |addrs| => mem[addrs[i]])
  }

  // ---------------------------------------------------------------------------------------------
  // Facts about the specification
  // ---------------------------------------------------------------------------------------------

  lemma {:induction false} RestIsWithin(sgl: seq<SgEntry>, c: Cursor, size: nat)
    requires CursorOk(sgl, c) && Mapped(sgl, size)
    ensures Within(Rest(sgl, c), size)
    decreases |sgl| - c.sg
  {
    if c.sg < |sgl| {
      assert sgl[c.sg] in sgl;
      RestIsWithin(sgl, Cursor(c.sg + 1, 0), size);
    }
  }

  lemma {:induction false} WritesJoin(mem: seq<byte>, a1: seq<nat>, a2: seq<nat>, d1: seq<byte>, d2: seq<byte>)
    requires |a1| == |d1| && |a2| == |d2| && Within(a1, |mem|) && Within(a2, |mem|)
    ensures Within(a1 + a2, |mem|)
    ensures WriteAll(mem, a1 + a2, d1 + d2) == WriteAll(WriteAll(mem, a1, d1), a2, d2)
    decreases |a1|
  {
    if a1 == [] {
      assert a1 + a2 == a2 && d1 + d2 == d2;
    } else {
      assert (a1 + a2)[1..] == a1[1..] + a2 && (d1 + d2)[1..] == d1[1..] + d2;
      WritesJoin(mem[a1[0] := d1[0]], a1[1..], a2, d1[1..], d2);
    }
  }

  lemma {:induction false} BlockWrite(mem: seq<byte>, a: nat, data: seq<byte>)
    requires a + |data| <= |mem|
    ensures WriteAll(mem, Range(a, |data|), data) == mem[..a] + data + mem[a + |data|..]
    decreases |data|
  {
    var r := Range(a, |data|);
    if data == [] {
      assert mem[..a] + data + mem[a..] == mem;
    } else {
      assert r[1..] == Range(a + 1, |data| - 1);
      var mem1 := mem[a := data[0]];
      BlockWrite(mem1, a + 1, data[1..]);
      assert mem1[..a + 1] == mem[..a] + [data[0]];
    }
  }

  /** Bytes whose address is not written keep their value. */
  lemma {:induction false} WritesNothingElse(mem: seq<byte>, addrs: seq<nat>, data: seq<byte>, a: nat)
    requires |addrs| == |data| && Within(addrs, |mem|) && a < |mem| && a !in addrs
    ensures WriteAll(mem, addrs, data)[a] == mem[a]
    decreases |addrs|
  {
    if addrs != [] {
      assert addrs[0] != a;
      WritesNothingElse(mem[addrs[0] := data[0]], addrs[1..], data[1..], a);
    }
  }

  ghost predicate Distinct(addrs: seq<nat>) {
    forall i, j :: 0 <= i < j < |addrs| ==> addrs[i] != addrs[j]
  }

  lemma {:induction false} ReadBack(mem: seq<byte>, addrs: seq<nat>, data: seq<byte>)
    requires |addrs| == |data| && Within(addrs, |mem|) && Distinct(addrs)
    ensures ReadAll(WriteAll(mem, addrs, data), addrs) == data
    decreases |addrs|
  {
    if addrs != [] {
      var mem1 := mem[addrs[0] := data[0]];
      ReadBack(mem1, addrs[1..], data[1..]);
      WritesNothingElse(mem1, addrs[1..], data[1..], addrs[0]);
      var m := WriteAll(mem, addrs, data);
      assert ReadAll(m, addrs)[1..] == ReadAll(m, addrs[1..]);
    }
  }

  /** No byte belongs to two entries. */
  ghost predicate NonOverlapping(sgl: seq<SgEntry>) {
    forall i, j :: 0 <= i < j < |sgl| ==>
      Base(sgl[i]) + sgl[i].length <= Base(sgl[j]) || Base(sgl[j]) + sgl[j].length <= Base(sgl[i])
  }

  lemma {:induction false} RestLiesInEntries(sgl: seq<SgEntry>, c: Cursor, a: nat)
    requires CursorOk(sgl, c) && a in Rest(sgl, c)
    ensures exists i :: c.sg <= i < |sgl| && Base(sgl[i]) <= a < Base(sgl[i]) + sgl[i].length
    decreases |sgl| - c.sg
  {
    if c.sg < |sgl| {
      if a in Rest(sgl, Cursor(c.sg + 1, 0)) {
        RestLiesInEntries(sgl, Cursor(c.sg + 1, 0), a);
      } else {
        assert a in Range(Base(sgl[c.sg]) + c.offset, sgl[c.sg].length - c.offset);
      }
    }
  }

  lemma {:induction false} NonOverlappingIsDistinct(sgl: seq<SgEntry>, c: Cursor)
    requires CursorOk(sgl, c) && NonOverlapping(sgl)
    ensures Distinct(Rest(sgl, c))
    decreases |sgl| - c.sg
  {
    if c.sg < |sgl| {
      var next := Rest(sgl, Cursor(c.sg + 1, 0));
      NonOverlappingIsDistinct(sgl, Cursor(c.sg + 1, 0));
      forall a | a in next
        ensures a < Base(sgl[c.sg]) || Base(sgl[c.sg]) + sgl[c.sg].length <= a
      {
        RestLiesInEntries(sgl, Cursor(c.sg + 1, 0), a);
      }
      var r, left := Rest(sgl, c), sgl[c.sg].length - c.offset;
      forall i, j | 0 <= i < j < |r|
        ensures r[i] != r[j]
      {
        if j >= left {
          assert r[j] == next[j - left] && r[j] in next;
          assert i >= left ==> r[i] == next[i - left];
        }
      }
    }
  }

  /** Advancing moves over exactly the bytes copied, and runs off the list only at its end. */
  lemma {:induction false} AdvanceSkips(sgl: seq<SgEntry>, c: Cursor, n: nat)
    requires CursorOk(sgl, c)
    ensures CursorOk(sgl, Advance(sgl, c, n))
    ensures Rest(sgl, Advance(sgl, c, n)) == Rest(sgl, c)[Min(n, |Rest(sgl, c)|)..]
    decreases |sgl| - c.sg
  {
    var r := Rest(sgl, c);
    if n == 0 || c.sg == |sgl| {
      assert r[0..] == r;
    } else {
      hide Mapped, Range;
      var left := sgl[c.sg].length - c.offset;
      var here, next := Range(Base(sgl[c.sg]) + c.offset, left), Rest(sgl, Cursor(c.sg + 1, 0));
      DropFromConcat(here, next, Min(n, |r|));
      if left > n {
        RangeDrop(Base(sgl[c.sg]) + c.offset, left, n);
      } else {
        AdvanceSkips(sgl, Cursor(c.sg + 1, 0), n - left);
      }
    }
  }

  lemma DropFromConcat(a: seq<nat>, b: seq<nat>, n: nat)
    requires n <= |a| + |b|
    ensures n <= |a| ==> (a + b)[n..] == a[n..] + b
    ensures n >= |a| ==> (a + b)[n..] == b[n - |a|..]
  {
  }

  lemma RangeDrop(a: nat, n: nat, k: nat)
    requires k <= n
    ensures Range(a, n)[k..] == Range(a + k, n - k)
  {
  }

  lemma {:induction false} AdvanceAdds(sgl: seq<SgEntry>, c: Cursor, a: nat, b: nat)
    requires CursorOk(sgl, c)
    ensures CursorOk(sgl, Advance(sgl, c, a))
    ensures Advance(sgl, Advance(sgl, c, a), b) == Advance(sgl, c, a + b)
    decreases |sgl| - c.sg
  {
    AdvanceSkips(sgl, c, a);
    if a != 0 && c.sg < |sgl| {
      var left := sgl[c.sg].length - c.offset;
      if left <= a {
        AdvanceAdds(sgl, Cursor(c.sg + 1, 0), a - left, b);
      }
    }
  }

  // ---------------------------------------------------------------------------------------------
  // usb_stor_access_xfer_buf
  // ---------------------------------------------------------------------------------------------

  /** Memory m with part of src, from s to t, laid over it from position d on. */
  ghost function Laid(m: seq<byte>, d: nat, src: seq<byte>, s: nat, t: nat): seq<byte>
    requires s <= t <= |src| && d + (t - s) <= |m|
  {
    m[..d] + src[s..t] + m[d + (t - s)..]
  }

  lemma LaidNothing(m: seq<byte>, d: nat, src: seq<byte>, s: nat)
    requires s <= |src| && d <= |m|
    ensures Laid(m, d, src, s, s) == m
  {
  }

  lemma LaidGrows(m: seq<byte>, d: nat, src: seq<byte>, s: nat, t: nat, n: nat)
    requires s <= t <= t + n <= |src| && d + (t + n - s) <= |m|
    ensures Laid(Laid(m, d, src, s, t), d + (t - s), src, t, t + n) == Laid(m, d, src, s, t + n)
  {
  }

  /** Memory and buffer after moving n bytes between address addr and buffer position cnt. */
  ghost function Moved(dir: Direction, m: seq<byte>, b: seq<byte>, addr: nat, cnt: nat, n: nat): (seq<byte>, seq<byte>)
    requires addr + n <= |m| && cnt + n <= |b|
  {
    if dir == ToXferBuf then (Laid(m, addr, b, cnt, cnt + n), b) else (m, Laid(b, cnt, m, addr, addr + n))
  }

  lemma MovedGrows(dir: Direction, m: seq<byte>, b: seq<byte>, addr: nat, cnt: nat, n: nat, k: nat)
    requires addr + n + k <= |m| && cnt + n + k <= |b|
    ensures Moved(dir, m, b, addr, cnt, 0) == (m, b)
    ensures var (m1, b1) := Moved(dir, m, b, addr, cnt, n);
            Moved(dir, m1, b1, addr + n, cnt + n, k) == Moved(dir, m, b, addr, cnt, n + k)
  {
    LaidNothing(m, addr, b, cnt);
    LaidNothing(b, cnt, m, addr);
    if dir == ToXferBuf {
      LaidGrows(m, addr, b, cnt, cnt + n, k);
    } else {
      LaidGrows(b, cnt, m, addr, addr + n, k);
    }
  }

  /** memcpy to or from a mapped page */
  method MovePiece(mem: array<byte>, addr: nat, buffer: array<byte>, cnt: nat, n: nat, dir: Direction)
    requires mem != buffer && addr + n <= mem.Length && cnt + n <= buffer.Length
    modifies if dir == ToXferBuf then mem else buffer
    ensures (mem[..], buffer[..]) == Moved(dir, old(mem[..]), old(buffer[..]), addr, cnt, n)
  {
    if dir == ToXferBuf {
      forall i | 0 <= i < n {
        mem[addr + i] := buffer[cnt + i];
      }
      assert mem[..] == Laid(old(mem[..]), addr, buffer[..], cnt, cnt + n) && buffer[..] == old(buffer[..]);
    } else {
      forall i | 0 <= i < n {
        buffer[cnt + i] := mem[addr + i];
      }
      assert buffer[..] == Laid(old(buffer[..]), cnt, mem[..], addr, addr + n) && mem[..] == old(mem[..]);
    }
  }

  /** Address of a byte of a page */
  function InPage(page: nat, poff: nat): nat {
    4096 * page + poff
  }

  /** The pages of one entry from byte poff0 of page0 on, mapped one at a time */
  method CopyPages(mem: array<byte>, page0: nat, poff0: nat, sglen0: nat, buffer: array<byte>, cnt0: nat, dir: Direction)
    requires mem != buffer && poff0 < PAGE_SIZE
    requires InPage(page0, poff0) + sglen0 <= mem.Length && cnt0 + sglen0 <= buffer.Length
    modifies if dir == ToXferBuf then mem else buffer
    ensures (mem[..], buffer[..]) == Moved(dir, old(mem[..]), old(buffer[..]), InPage(page0, poff0), cnt0, sglen0)
  {
    hide Moved;
    ghost var m0, b0 := mem[..], buffer[..];
    ghost var addr := InPage(page0, poff0);
    MovedGrows(dir, m0, b0, addr, cnt0, 0, 0);
    var page: nat, poff: nat := page0, poff0;
    var cnt, sglen := cnt0, sglen0;
    while sglen > 0
      invariant 0 <= sglen && cnt + sglen == cnt0 + sglen0 && cnt0 <= cnt && poff < PAGE_SIZE
      invariant sglen > 0 ==> InPage(page, poff) == addr + (cnt - cnt0)
      invariant (mem[..], buffer[..]) == Moved(dir, m0, b0, addr, cnt0, cnt - cnt0)
    {
      var plen := Min(sglen, PAGE_SIZE - poff);
      MovedGrows(dir, m0, b0, addr, cnt0, cnt - cnt0, plen);
      MovePiece(mem, InPage(page, poff), buffer, cnt, plen, dir);
      poff := 0;
      page := page + 1;
      cnt := cnt + plen;
      sglen := sglen - plen;
    }
  }

  ghost predicate AccessOk(sgl: seq<SgEntry>, c: Cursor, mem: array<byte>, buffer: array<byte>, buflen: nat) {
    mem != buffer && CursorOk(sgl, c) && Mapped(sgl, mem.Length) && buflen <= buffer.Length
  }

  /** Byte o of an entry: its page, and where in the page */
  lemma EntryAddress(e: SgEntry, o: nat)
    ensures Base(e) + o == InPage(e.page + (e.offset + o) / PAGE_SIZE, (e.offset + o) % PAGE_SIZE)
  {
  }

  /** How many bytes of the list lie between the cursor and entry k */
  ghost function Between(sgl: seq<SgEntry>, c: Cursor, k: nat): nat
    requires CursorOk(sgl, c) && c.sg < k < |sgl|
    decreases k
  {
    if k == c.sg + 1 then sgl[c.sg].length - c.offset else Between(sgl, c, k - 1) + sgl[k - 1].length
  }

  lemma {:induction false} RestFromEntry(sgl: seq<SgEntry>, c: Cursor, k: nat)
    requires CursorOk(sgl, c) && c.sg < k < |sgl|
    ensures Between(sgl, c, k) <= |Rest(sgl, c)| && Rest(sgl, c)[Between(sgl, c, k)..] == Rest(sgl, Cursor(k, 0))
    decreases k
  {
    if k > c.sg + 1 {
      RestFromEntry(sgl, c, k - 1);
      var here := Rest(sgl, Cursor(k - 1, 0));
      var n := Between(sgl, c, k - 1);
      assert here[sgl[k - 1].length..] == Rest(sgl, Cursor(k, 0));
      assert Rest(sgl, c)[n + sgl[k - 1].length..] == Rest(sgl, c)[n..][sgl[k - 1].length..];
    }
  }

  /** Where the bytes of the flattened list lie: byte o of entry k is byte (offset + o) % PAGE_SIZE of the
      page that many bytes behind the first page of the entry. */
  lemma ByteAddress(sgl: seq<SgEntry>, c: Cursor, k: nat, o: nat)
    requires CursorOk(sgl, c) && c.sg <= k < |sgl| && o < sgl[k].length && (k == c.sg ==> c.offset <= o)
    ensures var n := sgl[k].offset + o;
      var i := if k == c.sg then o - c.offset else Between(sgl, c, k) + o;
      && 0 <= i < |Rest(sgl, c)|
      && Rest(sgl, c)[i] == (sgl[k].page + n / 4096) * 4096 + n % 4096
  {
    EntryAddress(sgl[k], o);
    if k > c.sg {
      RestFromEntry(sgl, c, k);
      assert Rest(sgl, Cursor(k, 0))[o] == Rest(sgl, c)[Between(sgl, c, k)..][o];
    }
  }

  /** The first n bytes of a copy: data[..n] written to the addresses ahead, or read from them. */
  ghost function Transferred(dir: Direction, m: seq<byte>, b: seq<byte>, addrs: seq<nat>, n: nat)
    : (seq<byte>, seq<byte>)
    requires Within(addrs, |m|) && n <= |addrs| && n <= |b|
  {
    if dir == ToXferBuf then (WriteAll(m, addrs[..n], b[..n]), b)
    else (m, ReadAll(m, addrs[..n]) + b[n..])
  }

  lemma TransferredNothing(dir: Direction, m: seq<byte>, b: seq<byte>, addrs: seq<nat>)
    requires Within(addrs, |m|)
    ensures Transferred(dir, m, b, addrs, 0) == (m, b)
  {
    assert ReadAll(m, addrs[..0]) + b[0..] == b;
  }

  /** One more entry: addrs runs through consecutive bytes from position n on. */
  lemma TransferredGrows(dir: Direction, m: seq<byte>, b: seq<byte>, addrs: seq<nat>, n: nat, a: nat, k: nat)
    requires Within(addrs, |m|) && n + k <= |addrs| && n + k <= |b| && addrs[n..n + k] == Range(a, k) && a + k <= |m|
    ensures var (m1, b1) := Transferred(dir, m, b, addrs, n);
            Moved(dir, m1, b1, a, n, k) == Transferred(dir, m, b, addrs, n + k)
  {
    assert addrs[..n + k] == addrs[..n] + addrs[n..n + k];
    if dir == ToXferBuf {
      assert b[..n + k] == b[..n] + b[n..n + k];
      WritesJoin(m, addrs[..n], Range(a, k), b[..n], b[n..n + k]);
      BlockWrite(WriteAll(m, addrs[..n], b[..n]), a, b[n..n + k]);
    } else {
      ReadRange(m, addrs, n, a, k);
      var b1 := ReadAll(m, addrs[..n]) + b[n..];
      assert b1[..n] == ReadAll(m, addrs[..n]) && b1[n + k..] == b[n + k..];
    }
  }

  lemma ReadRange(m: seq<byte>, addrs: seq<nat>, n: nat, a: nat, k: nat)
    requires Within(addrs, |m|) && n + k <= |addrs| && addrs[n..n + k] == Range(a, k) && a + k <= |m|
    ensures ReadAll(m, addrs[..n + k]) == ReadAll(m, addrs[..n]) + m[a..a + k]
  {
    forall i | n <= i < n + k
      ensures m[addrs[i]] == m[a..a + k][i - n]
    {
      assert addrs[i] == addrs[n..n + k][i - n];
    }
  }

  /** What the outer loop does with one entry when want bytes are still to be moved. */
  lemma EntryStep(sgl: seq<SgEntry>, c: Cursor, want: nat, size: nat)
    requires CursorOk(sgl, c) && c.sg < |sgl| && want > 0 && Mapped(sgl, size)
    ensures var left := sgl[c.sg].length - c.offset;
            var piece := Min(left, want);
            var next := if left > want then Cursor(c.sg, c.offset + want) else Cursor(c.sg + 1, 0);
            && CursorOk(sgl, next)
            && piece <= |Rest(sgl, c)|
            && Rest(sgl, c)[..piece] == Range(Base(sgl[c.sg]) + c.offset, piece)
            && Rest(sgl, next) == Rest(sgl, c)[piece..]
            && Advance(sgl, next, want - piece) == Advance(sgl, c, want)
            && Base(sgl[c.sg]) + c.offset + piece <= size
  {
    assert sgl[c.sg] in sgl;
    AdvanceSkips(sgl, c, Min(sgl[c.sg].length - c.offset, want));
  }

  /** usb_stor_access_xfer_buf: moves exactly min(buflen, bytes ahead) bytes between the buffer and
      the flattened list, changes nothing else, and leaves the cursor where the next call goes on. */
  method AccessXferBuf(buffer: array<byte>, buflen: nat, sgl: seq<SgEntry>, c: Cursor, mem: array<byte>, dir: Direction)
      returns (cnt: nat, next: Cursor)
    requires AccessOk(sgl, c, mem, buffer, buflen)
    modifies if dir == ToXferBuf then mem else buffer
    ensures cnt == Min(buflen, |Ahead(sgl, c)|)
    ensures Within(Ahead(sgl, c), mem.Length)
    ensures (mem[..], buffer[..]) == Transferred(dir, old(mem[..]), old(buffer[..]), Ahead(sgl, c), cnt)
    ensures next == Advance(sgl, Resume(sgl, c), buflen)
  {
    hide Transferred, Moved, Rest, Advance, Base, InPage;
    ghost var ahead := Ahead(sgl, c);
    ghost var m0, b0 := mem[..], buffer[..];
    RestIsWithin(sgl, Resume(sgl, c), mem.Length);
    TransferredNothing(dir, m0, b0, ahead);
    var sg: nat := Resume(sgl, c).sg;
    var offset: nat := c.offset;
    cnt := 0;
    while cnt < buflen && sg < |sgl|
      invariant 0 <= cnt <= buflen && CursorOk(sgl, Cursor(sg, offset))
      invariant cnt <= |ahead| && Rest(sgl, Cursor(sg, offset)) == ahead[cnt..]
      invariant Advance(sgl, Cursor(sg, offset), buflen - cnt) == Advance(sgl, Resume(sgl, c), buflen)
      invariant (mem[..], buffer[..]) == Transferred(dir, m0, b0, ahead, cnt)
      decreases |sgl| - sg, buflen - cnt
    {
      EntryStep(sgl, Cursor(sg, offset), buflen - cnt, mem.Length);
      var page := sgl[sg].page + (sgl[sg].offset + offset) / PAGE_SIZE;
      var poff := (sgl[sg].offset + offset) % PAGE_SIZE;
      EntryAddress(sgl[sg], offset);
      ghost var addr := Base(sgl[sg]) + offset;
      var sglen := sgl[sg].length - offset;
      if sglen > buflen - cnt {
        sglen := buflen - cnt;
        offset := offset + sglen;
      } else {
        offset := 0;
        sg := sg + 1;
      }
      assert ahead[cnt..cnt + sglen] == ahead[cnt..][..sglen];
      TransferredGrows(dir, m0, b0, ahead, cnt, addr, sglen);
      CopyPages(mem, page, poff, sglen, buffer, cnt, dir);
      cnt := cnt + sglen;
    }
    next := Cursor(sg, offset);
    AtEnd(sgl, next, buflen - cnt);
  }

  lemma AtEnd(sgl: seq<SgEntry>, c: Cursor, n: nat)
    requires CursorOk(sgl, c) && (n == 0 || c.sg == |sgl|)
    ensures Advance(sgl, c, n) == c && (c.sg == |sgl| ==> Rest(sgl, c) == [])
  {
  }

  // ---------------------------------------------------------------------------------------------
  // What the copies promise together
  // ---------------------------------------------------------------------------------------------

  /** The effect of one writing call: memory, cursor, and the number of bytes moved. */
  datatype Copied = Copied(mem: seq<byte>, cursor: Cursor, count: nat)

  ghost function CopyTo(mem: seq<byte>, sgl: seq<SgEntry>, c: Cursor, data: seq<byte>): (r: Copied)
    requires CursorOk(sgl, c) && Mapped(sgl, |mem|)
    ensures |r.mem| == |mem| && CursorOk(sgl, r.cursor)
  {
    var ahead := Ahead(sgl, c);
    var n := Min(|data|, |ahead|);
    RestIsWithin(sgl, Resume(sgl, c), |mem|);
    AdvanceSkips(sgl, Resume(sgl, c), |data|);
    Copied(Transferred(ToXferBuf, mem, data, ahead, n).0, Advance(sgl, Resume(sgl, c), |data|), n)
  }

  lemma {:induction false} InsideMeansAllCopied(sgl: seq<SgEntry>, c: Cursor, n: nat)
    requires CursorOk(sgl, c)
    ensures Advance(sgl, c, n).sg < |sgl| ==> n <= |Rest(sgl, c)|
    ensures Advance(sgl, c, n).sg == |sgl| ==> |Rest(sgl, c)| <= n || c.sg == |sgl|
    decreases |sgl| - c.sg
  {
    if n != 0 && c.sg < |sgl| && sgl[c.sg].length - c.offset <= n {
      InsideMeansAllCopied(sgl, Cursor(c.sg + 1, 0), n - (sgl[c.sg].length - c.offset));
    }
  }

  lemma TransfersJoin(mem: seq<byte>, ahead: seq<nat>, d1: seq<byte>, d2: seq<byte>, n2: nat)
    requires Within(ahead, |mem|) && |d1| + n2 <= |ahead| && n2 <= |d2|
    ensures Within(ahead[|d1|..], |mem|)
    ensures Transferred(ToXferBuf, Transferred(ToXferBuf, mem, d1, ahead, |d1|).0, d2, ahead[|d1|..], n2).0
         == Transferred(ToXferBuf, mem, d1 + d2, ahead, |d1| + n2).0
  {
    hide WriteAll;
    assert ahead[|d1|..][..n2] == ahead[|d1|..|d1| + n2];
    assert ahead[..|d1| + n2] == ahead[..|d1|] + ahead[|d1|..|d1| + n2];
    assert (d1 + d2)[..|d1| + n2] == d1[..|d1|] + d2[..n2] && d1[..|d1|] == d1;
    WritesJoin(mem, ahead[..|d1|], ahead[|d1|..|d1| + n2], d1, d2[..n2]);
  }

  /** Two calls in a row are one call with both pieces, as long as the first stays inside the list. */
  lemma SplitCopy(mem: seq<byte>, sgl: seq<SgEntry>, c: Cursor, d1: seq<byte>, d2: seq<byte>)
    requires CursorOk(sgl, c) && Mapped(sgl, |mem|)
    requires CopyTo(mem, sgl, c, d1).cursor.sg < |sgl|
    ensures var r1 := CopyTo(mem, sgl, c, d1);
            var r2 := CopyTo(r1.mem, sgl, r1.cursor, d2);
            r1.count == |d1| && Copied(r2.mem, r2.cursor, r1.count + r2.count) == CopyTo(mem, sgl, c, d1 + d2)
  {
    hide Rest, Advance, WriteAll, Transferred, Mapped;
    var start := Resume(sgl, c);
    var ahead := Rest(sgl, start);
    RestIsWithin(sgl, start, |mem|);
    InsideMeansAllCopied(sgl, start, |d1|);
    AdvanceSkips(sgl, start, |d1|);
    AdvanceAdds(sgl, start, |d1|, |d2|);
    TransfersJoin(mem, ahead, d1, d2, Min(|d2|, |ahead| - |d1|));
  }

  /** And only then: once the first call ran off the list, the NULL cursor sends the second one back
      to the head, and the two move more bytes than the one would. */
  lemma SplitCopyExactly(mem: seq<byte>, sgl: seq<SgEntry>, c: Cursor, d1: seq<byte>, d2: seq<byte>)
    requires CursorOk(sgl, c) && Mapped(sgl, |mem|)
    ensures var r1 := CopyTo(mem, sgl, c, d1);
            r1.count + CopyTo(r1.mem, sgl, r1.cursor, d2).count == CopyTo(mem, sgl, c, d1 + d2).count
            <==> r1.cursor.sg < |sgl| || d2 == [] || Rest(sgl, Cursor(0, 0)) == []
  {
    var r1 := CopyTo(mem, sgl, c, d1);
    if r1.cursor.sg < |sgl| {
      SplitCopy(mem, sgl, c, d1, d2);
    } else {
      InsideMeansAllCopied(sgl, Resume(sgl, c), |d1|);
    }
  }

  ghost function CopyPieces(mem: seq<byte>, sgl: seq<SgEntry>, c: Cursor, pieces: seq<seq<byte>>): (r: Copied)
    requires CursorOk(sgl, c) && Mapped(sgl, |mem|)
    decreases |pieces|
  {
    if pieces == [] then Copied(mem, c, 0)
    else
      var first := CopyTo(mem, sgl, c, pieces[0]);
      var rest := CopyPieces(first.mem, sgl, first.cursor, pieces[1..]);
      Copied(rest.mem, rest.cursor, first.count + rest.count)
  }

  /** No piece but the last runs off the list. */
  ghost predicate StaysInside(mem: seq<byte>, sgl: seq<SgEntry>, c: Cursor, pieces: seq<seq<byte>>)
    requires CursorOk(sgl, c) && Mapped(sgl, |mem|)
    decreases |pieces|
  {
    |pieces| <= 1 ||
    var first := CopyTo(mem, sgl, c, pieces[0]);
    first.cursor.sg < |sgl| && StaysInside(first.mem, sgl, first.cursor, pieces[1..])
  }

  ghost function Concat(pieces: seq<seq<byte>>): seq<byte> {
    if pieces == [] then [] else pieces[0] + Concat(pieces[1..])
  }

  /** Any series of resumed calls equals the one call that copies all the pieces. */
  lemma {:induction false} PiecesEqualWhole(mem: seq<byte>, sgl: seq<SgEntry>, c: Cursor, pieces: seq<seq<byte>>)
    requires CursorOk(sgl, c) && Mapped(sgl, |mem|)
    requires pieces != [] && StaysInside(mem, sgl, c, pieces)
    ensures CopyPieces(mem, sgl, c, pieces) == CopyTo(mem, sgl, c, Concat(pieces))
    decreases |pieces|
  {
    hide CopyTo;
    var first := CopyTo(mem, sgl, c, pieces[0]);
    if |pieces| == 1 {
      assert CopyPieces(first.mem, sgl, first.cursor, pieces[1..]) == Copied(first.mem, first.cursor, 0);
      assert Concat(pieces[1..]) == [] && Concat(pieces) == pieces[0];
    } else {
      PiecesEqualWhole(first.mem, sgl, first.cursor, pieces[1..]);
      SplitCopy(mem, sgl, c, pieces[0], Concat(pieces[1..]));
    }
  }

  // ---------------------------------------------------------------------------------------------
  // The same for reading calls
  // ---------------------------------------------------------------------------------------------

  /** The effect of one reading call: the buffer afterwards, cursor, and the number of bytes moved. */
  datatype Fetched = Fetched(buffer: seq<byte>, cursor: Cursor, count: nat)

  ghost function CopyFrom(mem: seq<byte>, sgl: seq<SgEntry>, c: Cursor, buffer: seq<byte>): (r: Fetched)
    requires CursorOk(sgl, c) && Mapped(sgl, |mem|)
    ensures CursorOk(sgl, r.cursor)
  {
    var ahead := Ahead(sgl, c);
    var n := Min(|buffer|, |ahead|);
    RestIsWithin(sgl, Resume(sgl, c), |mem|);
    AdvanceSkips(sgl, Resume(sgl, c), |buffer|);
    Fetched(Transferred(FromXferBuf, mem, buffer, ahead, n).1, Advance(sgl, Resume(sgl, c), |buffer|), n)
  }

  /** Both directions move the same number of bytes and leave the same cursor. */
  lemma DirectionsAgree(mem: seq<byte>, sgl: seq<SgEntry>, c: Cursor, b: seq<byte>)
    requires CursorOk(sgl, c) && Mapped(sgl, |mem|)
    ensures CopyFrom(mem, sgl, c, b).cursor == CopyTo(mem, sgl, c, b).cursor
    ensures CopyFrom(mem, sgl, c, b).count == CopyTo(mem, sgl, c, b).count
  {
    hide Transferred, Ahead, Advance;
  }

  lemma ReadsJoin(mem: seq<byte>, ahead: seq<nat>, b1: seq<byte>, b2: seq<byte>, n2: nat)
    requires Within(ahead, |mem|) && |b1| + n2 <= |ahead| && n2 <= |b2|
    ensures Within(ahead[|b1|..], |mem|)
    ensures Transferred(FromXferBuf, mem, b1, ahead, |b1|).1 + Transferred(FromXferBuf, mem, b2, ahead[|b1|..], n2).1
         == Transferred(FromXferBuf, mem, b1 + b2, ahead, |b1| + n2).1
  {
    var n := |b1|;
    assert ahead[n..][..n2] == ahead[n..n + n2];
    assert ReadAll(mem, ahead[..n + n2]) == ReadAll(mem, ahead[..n]) + ReadAll(mem, ahead[n..n + n2]);
    assert (b1 + b2)[n + n2..] == b2[n2..] && b1[n..] == [];
  }

  /** Two reading calls in a row put the bytes of the one call into their two buffers, as long as the
      first stays inside the list. */
  lemma SplitRead(mem: seq<byte>, sgl: seq<SgEntry>, c: Cursor, b1: seq<byte>, b2: seq<byte>)
    requires CursorOk(sgl, c) && Mapped(sgl, |mem|)
    requires CopyFrom(mem, sgl, c, b1).cursor.sg < |sgl|
    ensures var r1 := CopyFrom(mem, sgl, c, b1);
            var r2 := CopyFrom(mem, sgl, r1.cursor, b2);
            r1.count == |b1|
            && Fetched(r1.buffer + r2.buffer, r2.cursor, r1.count + r2.count) == CopyFrom(mem, sgl, c, b1 + b2)
  {
    hide Rest, Advance, Transferred, Mapped;
    var start := Resume(sgl, c);
    var ahead := Rest(sgl, start);
    RestIsWithin(sgl, start, |mem|);
    InsideMeansAllCopied(sgl, start, |b1|);
    AdvanceSkips(sgl, start, |b1|);
    AdvanceAdds(sgl, start, |b1|, |b2|);
    ReadsJoin(mem, ahead, b1, b2, Min(|b2|, |ahead| - |b1|));
  }

  /** The counts of two reading calls add up exactly when those of two writing calls do. */
  lemma SplitReadExactly(mem: seq<byte>, sgl: seq<SgEntry>, c: Cursor, b1: seq<byte>, b2: seq<byte>)
    requires CursorOk(sgl, c) && Mapped(sgl, |mem|)
    ensures var r1 := CopyFrom(mem, sgl, c, b1);
            r1.count + CopyFrom(mem, sgl, r1.cursor, b2).count == CopyFrom(mem, sgl, c, b1 + b2).count
            <==> r1.cursor.sg < |sgl| || b2 == [] || Rest(sgl, Cursor(0, 0)) == []
  {
    hide CopyTo, CopyFrom;
    SplitCopyExactly(mem, sgl, c, b1, b2);
    var w1 := CopyTo(mem, sgl, c, b1);
    DirectionsAgree(mem, sgl, c, b1);
    DirectionsAgree(mem, sgl, c, b1 + b2);
    DirectionsAgree(mem, sgl, w1.cursor, b2);
    CountIgnoresMemory(w1.mem, mem, sgl, w1.cursor, b2);
  }

  lemma CountIgnoresMemory(m1: seq<byte>, m2: seq<byte>, sgl: seq<SgEntry>, c: Cursor, b: seq<byte>)
    requires CursorOk(sgl, c) && Mapped(sgl, |m1|) && Mapped(sgl, |m2|)
    ensures CopyTo(m1, sgl, c, b).count == CopyTo(m2, sgl, c, b).count
  {
    hide Transferred, Ahead, Advance;
  }

  ghost function ReadPieces(mem: seq<byte>, sgl: seq<SgEntry>, c: Cursor, pieces: seq<seq<byte>>): (r: Fetched)
    requires CursorOk(sgl, c) && Mapped(sgl, |mem|)
    decreases |pieces|
  {
    if pieces == [] then Fetched([], c, 0)
    else
      var first := CopyFrom(mem, sgl, c, pieces[0]);
      var rest := ReadPieces(mem, sgl, first.cursor, pieces[1..]);
      Fetched(first.buffer + rest.buffer, rest.cursor, first.count + rest.count)
  }

  /** No piece but the last runs off the list. */
  ghost predicate ReadsInside(mem: seq<byte>, sgl: seq<SgEntry>, c: Cursor, pieces: seq<seq<byte>>)
    requires CursorOk(sgl, c) && Mapped(sgl, |mem|)
    decreases |pieces|
  {
    |pieces| <= 1 ||
    var first := CopyFrom(mem, sgl, c, pieces[0]);
    first.cursor.sg < |sgl| && ReadsInside(mem, sgl, first.cursor, pieces[1..])
  }

  /** Any series of resumed reading calls puts the bytes of the one call into its buffers, in order. */
  lemma {:induction false} ReadPiecesEqualWhole(mem: seq<byte>, sgl: seq<SgEntry>, c: Cursor, pieces: seq<seq<byte>>)
    requires CursorOk(sgl, c) && Mapped(sgl, |mem|)
    requires pieces != [] && ReadsInside(mem, sgl, c, pieces)
    ensures ReadPieces(mem, sgl, c, pieces) == CopyFrom(mem, sgl, c, Concat(pieces))
    decreases |pieces|
  {
    hide CopyFrom;
    var first := CopyFrom(mem, sgl, c, pieces[0]);
    if |pieces| == 1 {
      assert ReadPieces(mem, sgl, first.cursor, pieces[1..]) == Fetched([], first.cursor, 0);
      assert Concat(pieces[1..]) == [] && Concat(pieces) == pieces[0];
      assert first.buffer + [] == first.buffer;
    } else {
      ReadPiecesEqualWhole(mem, sgl, first.cursor, pieces[1..]);
      SplitRead(mem, sgl, c, pieces[0], Concat(pieces[1..]));
    }
  }

  /** One entry of one byte: two writing calls of one byte each move two bytes, one call of two moves one. */
  lemma SplitCopyCanMoveMore()
    ensures var sgl := [SgEntry(0, 0, 1)];
            var r1 := CopyTo([7], sgl, Cursor(0, 0), [8]);
            && Mapped(sgl, 1) && r1.cursor == Cursor(1, 0)
            && r1.count + CopyTo(r1.mem, sgl, r1.cursor, [9]).count == 2
            && CopyTo([7], sgl, Cursor(0, 0), [8, 9]).count == 1
  {
    var sgl := [SgEntry(0, 0, 1)];
    assert Rest(sgl, Cursor(1, 0)) == [];
    assert |Rest(sgl, Cursor(0, 0))| == 1;
    assert Advance(sgl, Cursor(0, 0), 1) == Advance(sgl, Cursor(1, 0), 0);
  }

  /** Writing to a list without overlaps and reading from the same place gives the data back; bytes
      the copy did not reach keep their value. */
  lemma WriteThenRead(mem: seq<byte>, sgl: seq<SgEntry>, c: Cursor, data: seq<byte>)
    requires CursorOk(sgl, c) && Mapped(sgl, |mem|) && NonOverlapping(sgl)
    ensures var r := CopyTo(mem, sgl, c, data);
            && r.count <= |Ahead(sgl, c)| && Within(Ahead(sgl, c), |r.mem|)
            && Transferred(FromXferBuf, r.mem, data, Ahead(sgl, c), r.count).1 == data
            && forall a :: 0 <= a < |mem| && a !in Ahead(sgl, c)[..r.count] ==> r.mem[a] == mem[a]
  {
    var ahead := Ahead(sgl, c);
    var n := Min(|data|, |ahead|);
    RestIsWithin(sgl, Resume(sgl, c), |mem|);
    NonOverlappingIsDistinct(sgl, Resume(sgl, c));
    ReadBack(mem, ahead[..n], data[..n]);
    assert data[..n] + data[n..] == data;
    forall a | 0 <= a < |mem| && a !in ahead[..n]
      ensures WriteAll(mem, ahead[..n], data[..n])[a] == mem[a]
    {
      WritesNothingElse(mem, ahead[..n], data[..n], a);
    }
  }

  // ---------------------------------------------------------------------------------------------
  // usb_stor_set_xfer_buf
  // ---------------------------------------------------------------------------------------------

  class Srb {
    const sgl: seq<SgEntry>
    const bufflen: nat
    var resid: int

    constructor (sgl: seq<SgEntry>, bufflen: nat)
      ensures this.sgl == sgl && this.bufflen == bufflen && resid == 0
    {
      this.sgl, this.bufflen := sgl, bufflen;
      resid := 0;
    }
  }

  /** Stores the buffer from the head of the list on; the residue becomes what was not filled, except
      that a transfer filled to the last byte leaves the residue as it was. */
  method SetXferBuf(buffer: array<byte>, buflen0: nat, srb: Srb, mem: array<byte>)
    requires AccessOk(srb.sgl, Cursor(0, 0), mem, buffer, buflen0)
    modifies srb, mem
    ensures var stored := Min(Min(buflen0, srb.bufflen), |Rest(srb.sgl, Cursor(0, 0))|);
            && mem[..] == CopyTo(old(mem[..]), srb.sgl, Cursor(0, 0), buffer[..Min(buflen0, srb.bufflen)]).mem
            && srb.resid == (if stored < srb.bufflen then srb.bufflen - stored else old(srb.resid))
            && (srb.resid == srb.bufflen - stored <==> stored < srb.bufflen || old(srb.resid) == 0)
  {
    var buflen := Min(buflen0, srb.bufflen);
    ghost var m0 := mem[..];
    ghost var ahead := Ahead(srb.sgl, Cursor(0, 0));
    var count, _ := AccessXferBuf(buffer, buflen, srb.sgl, Cursor(0, 0), mem, ToXferBuf);
    assert buffer[..][..count] == buffer[..buflen][..count];
    assert CopyTo(m0, srb.sgl, Cursor(0, 0), buffer[..buflen]).count == count;
    if count < srb.bufflen {
      srb.resid := srb.bufflen - count;
    }
  }

  /** A full buffer stored over a command with a residue of five: the residue stays five. */
  method FullTransferKeepsResidue() returns (resid: int)
    ensures resid == 5
  {
    var srb := new Srb([SgEntry(0, 0, 1)], 1);
    srb.resid := 5;
    var buffer, mem := new byte[1](_ => 7), new byte[1](_ => 0);
    assert |Rest(srb.sgl, Cursor(0, 0))| == 1 by {
      assert Rest(srb.sgl, Cursor(1, 0)) == [];
    }
    SetXferBuf(buffer, 1, srb, mem);
    resid := srb.resid;
  }
}
