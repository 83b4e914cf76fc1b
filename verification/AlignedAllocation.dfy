/** The completion handler's aligned allocation (any_completion_handler.hpp): over-allocate, align,
    and keep the distance to the start of the block behind the user's bytes. */
module AlignedAllocation {
  import opened Prelude

  /** The number of values of `std::size_t`. */
  const SIZE_SPAN: nat := 0x1_0000_0000_0000_0000

  /** sizeof(std::ptrdiff_t) */
  const OFFSET_BYTES := 8

  // ---------------------------------------------------------------- size arithmetic

  /** `size + align_size - 1` in std::size_t. */
  function Space(size: nat, align: nat): nat
    requires align >= 1
  {
    (size + align - 1) % SIZE_SPAN
  }

  /** The byte count asked of the underlying allocator. */
  function Requested(size: nat, align: nat): nat
    requires align >= 1
  {
    (Space(size, align) + OFFSET_BYTES) % SIZE_SPAN
  }

  /** Distance from `p` up to the next multiple of `align`. */
  function Padding(p: nat, align: nat): nat
    requires align >= 1
  {
    (align - p % align) % align
  }

  /** std::align: the first aligned address, if the object then still fits in the space. */
  function Align(align: nat, size: nat, p: nat, space: nat): Option<nat>
    requires align >= 1
  {
    if space < size || Padding(p, align) > space - size then None else Some(p + Padding(p, align))
  }

  predicate AlignedTo(p: nat, align: nat)
    requires align >= 1
  {
    p % align == 0
  }

  function Place(base: nat, size: nat, align: nat): Option<nat>
    requires align >= 1
  {
    Align(align, size, base, Space(size, align))
  }

  lemma ProductGrows(a: nat, m: nat, n: nat)
    requires m < n
    ensures a * m + a <= a * n
  {
    assert a * n == a * m + a * (n - m);
    assert a * (n - m) == a * (n - m - 1) + a;
  }

  lemma RemainderUnique(x: nat, a: nat, q: nat, r: nat)
    requires r < a && x == a * q + r
    ensures x % a == r
  {
    var k := x / a;
    assert x == a * k + x % a;
    if k < q {
      ProductGrows(a, k, q);
    } else if q < k {
      ProductGrows(a, q, k);
    }
  }

  lemma {:induction false} PaddingAligns(p: nat, align: nat)
    requires align >= 1
    ensures Padding(p, align) < align && AlignedTo(p + Padding(p, align), align)
  {
    var k, r := p / align, p % align;
    assert p == align * k + r;
    if r == 0 {
      RemainderUnique(align, align, 1, 0);
    } else {
      RemainderUnique(align - r, align, 0, align - r);
      assert align * (k + 1) == align * k + align;
      RemainderUnique(p + Padding(p, align), align, k + 1, 0);
    }
  }

  /** Wherever the block lies, placing succeeds exactly when `size + align - 1` does not wrap, at an
      aligned address less than `align` bytes into the block. */
  lemma {:induction false} PlacementExact(base: nat, size: nat, align: nat)
    requires size < SIZE_SPAN && 1 <= align < SIZE_SPAN
    ensures Place(base, size, align).Some? <==> size + align - 1 < SIZE_SPAN
    ensures Place(base, size, align).Some? ==>
              var p := Place(base, size, align).value;
              base <= p < base + align && AlignedTo(p, align)
  {
    PaddingAligns(base, align);
  }

  /** The user's bytes and the stored offset lie inside the block exactly when the whole request
      `size + align - 1 + 8` does not wrap. */
  lemma InsideBlockExact(base: nat, size: nat, align: nat)
    requires size < SIZE_SPAN && 1 <= align < SIZE_SPAN && Place(base, size, align).Some?
    ensures Place(base, size, align).value + size + OFFSET_BYTES <= base + Requested(size, align)
       <==> size + align - 1 + OFFSET_BYTES < SIZE_SPAN
  {
    hide Padding, AlignedTo;
    PaddingAligns(base, align);
  }

  /** The limit at a concrete input: nothing is obtained, and user bytes and offset are placed. */
  lemma NothingObtained(base: nat)
    ensures var size: nat := SIZE_SPAN - 8;
            && Requested(size, 1) == 0 && Place(base, size, 1) == Some(base)
            && base + size + OFFSET_BYTES > base + Requested(size, 1)
  {
    PaddingAligns(base, 1);
  }

  // ---------------------------------------------------------------- the stored offset

  function {:induction false} Encode(n: nat, bytes: nat): (s: seq<Byte>)
    ensures |s| == bytes
  {
    if bytes == 0 then [] else [n % 256] + Encode(n / 256, bytes - 1)
  }

  function Decode(s: seq<Byte>): nat {
    if s == [] then 0 else s[0] + 256 * Decode(s[1..])
  }

  function Power256(bytes: nat): nat {
    if bytes == 0 then 1 else 256 * Power256(bytes - 1)
  }

  lemma {:induction false} DecodeEncode(n: nat, bytes: nat)
    requires n < Power256(bytes)
    ensures Decode(Encode(n, bytes)) == n
  {
    if bytes > 0 {
      DecodeEncode(n / 256, bytes - 1);
      assert Encode(n, bytes)[1..] == Encode(n / 256, bytes - 1);
    }
  }

  lemma OffsetRoundTrip(off: nat)
    requires off < SIZE_SPAN
    ensures Decode(Encode(off, OFFSET_BYTES)) == off
  {
    assert Power256(4) == 0x1_0000_0000;
    assert Power256(8) == SIZE_SPAN;
    DecodeEncode(off, OFFSET_BYTES);
  }

  // ---------------------------------------------------------------- memory

  type Memory = nat -> Byte

  function Patch(m: Memory, at: nat, s: seq<Byte>): Memory {
    (a: nat) => if at <= a < at + |s| then s[a - at] else m(a)
  }

  function Peek(m: Memory, at: nat, count: nat): (s: seq<Byte>)
    ensures |s| == count
    ensures forall i :: 0 <= i < count ==> s[i] == m(at + i)
  {
    seq(count, i requires 0 <= i < count => m(at + i))
  }

  lemma PatchPeek(m: Memory, at: nat, s: seq<Byte>, from: nat, count: nat)
    ensures Peek(Patch(m, at, s), at, |s|) == s
    ensures from + count <= at || at + |s| <= from ==> Peek(Patch(m, at, s), from, count) == Peek(m, from, count)
  {
  }

  /** The underlying allocator's live blocks: base address to byte count. */
  type Blocks = map<nat, nat>

  ghost predicate Apart(blocks: Blocks) {
    forall b, c :: b in blocks && c in blocks && b != c ==> b + blocks[b] <= c || c + blocks[c] <= b
  }

  /** A live user block: where its underlying block starts and what was asked for. */
  datatype User = User(base: nat, size: nat, align: nat)

  /** The block of `p` contains, disjointly, the user's bytes and the encoded distance. */
  ghost predicate Stored(m: Memory, blocks: Blocks, p: nat, u: User) {
    && 1 <= u.align && u.base in blocks
    && blocks[u.base] == u.size + u.align - 1 + OFFSET_BYTES < SIZE_SPAN
    && u.base <= p < u.base + u.align && AlignedTo(p, u.align)
    && Peek(m, p + u.size, OFFSET_BYTES) == Encode(p - u.base, OFFSET_BYTES)
  }

  ghost predicate AllStored(m: Memory, blocks: Blocks, users: map<nat, User>) {
    && (forall p :: p in users ==> Stored(m, blocks, p, users[p]))
    && (forall p, q :: p in users && q in users && p != q ==> users[p].base != users[q].base)
  }

  /** Every one of these users reads the bytes it read before. */
  ghost predicate OthersKept(m: Memory, m': Memory, users: map<nat, User>) {
    forall q :: q in users ==> Peek(m', q, users[q].size) == Peek(m, q, users[q].size)
  }

  /** Writing among the bytes of one user leaves the offset stored for it, or for another, in place. */
  lemma WriteKeepsOne(m: Memory, blocks: Blocks, p: nat, u: User, at: nat, b: Byte, q: nat, v: User)
    requires Stored(m, blocks, p, u) && Stored(m, blocks, q, v) && p <= at < p + u.size
    requires (p == q && u == v) || (u.base != v.base && Apart(blocks))
    ensures Stored(Patch(m, at, [b]), blocks, q, v)
  {
    hide Encode, Patch, AlignedTo, Peek;
    PatchPeek(m, at, [b], q + v.size, OFFSET_BYTES);
  }

  /** Writing inside one block, outside its stored offset, leaves every stored offset in place. */
  lemma WriteKeepsStored(m: Memory, blocks: Blocks, users: map<nat, User>, p: nat, offset: nat, b: Byte)
    requires Apart(blocks) && AllStored(m, blocks, users)
    requires p in users && offset < users[p].size
    ensures AllStored(Patch(m, p + offset, [b]), blocks, users)
  {
    hide Stored, Apart, Patch;
    forall q | q in users ensures Stored(Patch(m, p + offset, [b]), blocks, q, users[q]) {
      WriteKeepsOne(m, blocks, p, users[p], p + offset, b, q, users[q]);
    }
  }

  /** Writing inside a block apart from that of `q` leaves `q` as it was. */
  lemma OtherKeepsStored(m: Memory, blocks: Blocks, base: nat, count: nat, at: nat, s: seq<Byte>, q: nat, v: User)
    requires Stored(m, blocks, q, v) && base !in blocks && Apart(blocks[base := count])
    requires base <= at && at + |s| <= base + count
    ensures Stored(Patch(m, at, s), blocks[base := count], q, v)
    ensures !(base <= q < base + count)
  {
    var blocks' := blocks[base := count];
    assert base in blocks' && v.base in blocks';
    PatchPeek(m, at, s, q + v.size, OFFSET_BYTES);
  }

  /** Storing the offset of a new user leaves those of the others in place. */
  lemma AllocateKeepsStored(m: Memory, blocks: Blocks, users: map<nat, User>, count: nat, p: nat, u: User)
    requires u.base !in blocks && Apart(blocks[u.base := count]) && AllStored(m, blocks, users)
    requires 1 <= u.align && count == u.size + u.align - 1 + OFFSET_BYTES < SIZE_SPAN
    requires u.base <= p < u.base + u.align && AlignedTo(p, u.align)
    ensures p !in users
    ensures AllStored(Patch(m, p + u.size, Encode(p - u.base, OFFSET_BYTES)), blocks[u.base := count], users[p := u])
  {
    hide Encode, AlignedTo, Patch;
    var offset := Encode(p - u.base, OFFSET_BYTES);
    var m', blocks', users' := Patch(m, p + u.size, offset), blocks[u.base := count], users[p := u];
    forall q | q in users ensures q != p && Stored(m', blocks', q, users[q]) && users[q].base != u.base {
      assert Stored(m, blocks, q, users[q]);
      OtherKeepsStored(m, blocks, u.base, count, p + u.size, offset, q, users[q]);
    }
    PatchPeek(m, p + u.size, offset, 0, 0);
    assert Stored(m', blocks', p, u);
    forall q | q in users' ensures Stored(m', blocks', q, users'[q]) {
      assert q == p || q in users;
    }
  }

  /** A block nobody uses changes nothing for the users. */
  lemma UnusedBlock(m: Memory, blocks: Blocks, users: map<nat, User>, base: nat, count: nat)
    requires base !in blocks && AllStored(m, blocks, users)
    ensures AllStored(m, blocks[base := count], users)
  {
    forall q | q in users ensures Stored(m, blocks[base := count], q, users[q]) {
      assert Stored(m, blocks, q, users[q]);
    }
  }

  /** Freeing one user's block leaves the others in place. */
  lemma FreeKeepsStored(m: Memory, blocks: Blocks, users: map<nat, User>, p: nat)
    requires Apart(blocks) && AllStored(m, blocks, users) && p in users
    ensures Apart(blocks - {users[p].base}) && AllStored(m, blocks - {users[p].base}, users - {p})
  {
    hide Encode, Peek, AlignedTo, Stored;
    forall q | q in users - {p} ensures Stored(m, blocks - {users[p].base}, q, users[q]) {
      OtherBlockFreed(m, blocks, users[p].base, q, users[q]);
    }
  }

  lemma OtherBlockFreed(m: Memory, blocks: Blocks, base: nat, q: nat, v: User)
    requires Stored(m, blocks, q, v) && v.base != base
    ensures Stored(m, blocks - {base}, q, v)
  {
  }

  /** The stored offset leads back to the start of the block, and the sizes to its byte count. */
  lemma BaseRecovered(m: Memory, blocks: Blocks, p: nat, u: User)
    requires Stored(m, blocks, p, u)
    ensures Decode(Peek(m, p + u.size, OFFSET_BYTES)) == p - u.base
    ensures u.base in blocks && u.size + u.align - 1 + OFFSET_BYTES == blocks[u.base]
  {
    OffsetRoundTrip(p - u.base);
  }

  /** Bytes written inside a block apart from that of `q` leave the bytes of `q` as they were. */
  lemma OtherBytesKept(m: Memory, blocks: Blocks, base: nat, at: nat, s: seq<Byte>, q: nat, v: User)
    requires Stored(m, blocks, q, v) && base in blocks && base != v.base && Apart(blocks)
    requires base <= at && at + |s| <= base + blocks[base]
    ensures Peek(Patch(m, at, s), q, v.size) == Peek(m, q, v.size)
  {
    hide Encode, AlignedTo;
    PatchPeek(m, at, s, q, v.size);
  }

  /** Storing the offset of a new user changes no byte of the others. */
  lemma AllocateKeepsBytes(m: Memory, blocks: Blocks, users: map<nat, User>, count: nat, p: nat, u: User)
    requires u.base !in blocks && Apart(blocks[u.base := count]) && AllStored(m, blocks, users)
    requires count == u.size + u.align - 1 + OFFSET_BYTES && u.base <= p < u.base + u.align
    ensures OthersKept(m, Patch(m, p + u.size, Encode(p - u.base, OFFSET_BYTES)), users)
  {
    hide Encode, AlignedTo, Patch, Peek;
    var offset := Encode(p - u.base, OFFSET_BYTES);
    forall q | q in users ensures Peek(Patch(m, p + u.size, offset), q, users[q].size) == Peek(m, q, users[q].size) {
      assert Stored(m, blocks, q, users[q]);
      OtherBytesKept(m, blocks[u.base := count], u.base, p + u.size, offset, q, users[q]);
    }
  }

  /** A user's writing changes no byte of the others. */
  lemma WriteKeepsBytes(m: Memory, blocks: Blocks, users: map<nat, User>, p: nat, offset: nat, b: Byte)
    requires Apart(blocks) && AllStored(m, blocks, users) && p in users && offset < users[p].size
    ensures OthersKept(m, Patch(m, p + offset, [b]), users - {p})
  {
    hide Encode, AlignedTo, Patch, Peek;
    assert Stored(m, blocks, p, users[p]);
    forall q | q in users - {p} ensures Peek(Patch(m, p + offset, [b]), q, users[q].size) == Peek(m, q, users[q].size) {
      assert Stored(m, blocks, q, users[q]);
      OtherBytesKept(m, blocks, users[p].base, p + offset, [b], q, users[q]);
    }
  }

  /** What placing gives when the whole request does not wrap. */
  lemma PlacedInside(base: nat, size: nat, align: nat)
    requires 1 <= align && size + align - 1 + OFFSET_BYTES < SIZE_SPAN
    ensures Requested(size, align) == size + align - 1 + OFFSET_BYTES
    ensures Place(base, size, align).Some?
    ensures base <= Place(base, size, align).value < base + align
    ensures AlignedTo(Place(base, size, align).value, align)
  {
    PlacementExact(base, size, align);
  }

  lemma StoredUser(m: Memory, blocks: Blocks, users: map<nat, User>, p: nat)
    requires AllStored(m, blocks, users) && p in users
    ensures Stored(m, blocks, p, users[p])
  {
  }

  class Heap {
    var memory: Memory
    var blocks: Blocks
    ghost var users: map<nat, User>

    ghost predicate Valid()
      reads this
    {
      Apart(blocks) && AllStored(memory, blocks, users)
    }

    constructor (initial: Memory)
      ensures Valid() && memory == initial && blocks == map[] && users == map[]
    {
      memory, blocks, users := initial, map[], map[];
    }

    /** `base` is the address the underlying allocator answers with: any block apart from the live
        ones. `None` is the thrown bad_alloc; the block obtained for it is then never freed. */
    method Allocate(size: nat, align: nat, base: nat) returns (p: Option<nat>)
      requires Valid() && size < SIZE_SPAN && 1 <= align < SIZE_SPAN
      requires base !in blocks && Apart(blocks[base := Requested(size, align)])
      modifies this
      ensures blocks == old(blocks)[base := Requested(size, align)]
      ensures p.Some? <==> size + align - 1 < SIZE_SPAN
      ensures p == Place(base, size, align)
      ensures p.None? ==> Valid() && memory == old(memory) && users == old(users)
      ensures p.Some? ==> base <= p.value
      ensures p.Some? && size + align - 1 + OFFSET_BYTES < SIZE_SPAN ==>
                && Valid() && AlignedTo(p.value, align)
                && p.value + size + OFFSET_BYTES <= base + blocks[base]
                && p.value !in old(users) && users == old(users)[p.value := User(base, size, align)]
                && OthersKept(old(memory), memory, old(users))
      ensures p.Some? ==> memory == Patch(old(memory), p.value + size, Encode(p.value - base, OFFSET_BYTES))
    {
      hide Place, Requested, Encode, AllStored, Apart, Padding, OthersKept;
      PlacementExact(base, size, align);
      p := Place(base, size, align);
      if p.Some? {
        if size + align - 1 + OFFSET_BYTES < SIZE_SPAN {
          PlacedInside(base, size, align);
          AllocateKeepsStored(memory, blocks, users, Requested(size, align), p.value, User(base, size, align));
          AllocateKeepsBytes(memory, blocks, users, Requested(size, align), p.value, User(base, size, align));
        }
        memory := Patch(memory, p.value + size, Encode(p.value - base, OFFSET_BYTES));
        users := users[p.value := User(base, size, align)];
      } else {
        UnusedBlock(memory, blocks, users, base, Requested(size, align));
      }
      blocks := blocks[base := Requested(size, align)];
    }

    /** A user writing inside its own region. */
    method Write(p: nat, offset: nat, b: Byte)
      requires Valid() && p in users && offset < users[p].size
      modifies this`memory
      ensures Valid() && memory == Patch(old(memory), p + offset, [b])
      ensures OthersKept(old(memory), memory, users - {p})
    {
      WriteKeepsBytes(memory, blocks, users, p, offset, b);
      WriteKeepsStored(memory, blocks, users, p, offset, b);
      memory := Patch(memory, p + offset, [b]);
    }

    /** Recovers the block from the stored offset and frees it, with the byte count it was obtained
        with; `None` is the null pointer. */
    method Deallocate(p: Option<nat>, size: nat, align: nat) returns (freed: Option<(nat, nat)>)
      requires Valid()
      requires p.Some? ==> p.value in users && users[p.value].size == size && users[p.value].align == align
      modifies this`blocks, this`users
      ensures Valid()
      ensures p.None? ==> freed.None? && blocks == old(blocks) && users == old(users)
      ensures p.Some? ==>
                && old(users)[p.value].base in old(blocks)
                && freed == Some((old(users)[p.value].base, old(blocks)[old(users)[p.value].base]))
                && blocks == old(blocks) - {old(users)[p.value].base} && users == old(users) - {p.value}
    {
      hide Encode, Decode, Peek, AllStored, Apart;
      if p.None? {
        return None;
      }
      StoredUser(memory, blocks, users, p.value);
      BaseRecovered(memory, blocks, p.value, users[p.value]);
      FreeKeepsStored(memory, blocks, users, p.value);
      var base := p.value - Decode(Peek(memory, p.value + size, OFFSET_BYTES));
      freed := Some((base, size + align - 1 + OFFSET_BYTES));
      blocks := blocks - {base};
      users := users - {p.value};
    }
  }
}
