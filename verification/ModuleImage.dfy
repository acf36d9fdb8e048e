/**
 The kernel image: the packer that appends binaries to the kernel, and the loader that
 copies them out of the image to where they run.
 */
module ModuleImage {
  import opened Bytes

  const TWO_32: int := 0x1_0000_0000
  const CHUNK := 128

  // ----- the format -----

  type Word = n: int | 0 <= n < TWO_32

  /** The four bytes of a 32-bit number, lowest first. */
  function Le32(n: Word): (s: seq<Byte>)
    ensures |s| == 4
  {
    [n % 256, n / 256 % 256, n / 65536 % 256, n / 16777216]
  }

  function FromBytes(a: int, b: int, c: int, d: int): int {
    a + 256 * b + 65536 * c + 16777216 * d
  }

  function U32(s: seq<Byte>, at: nat): (n: Word)
    requires at + 4 <= |s|
  {
    FromBytes(s[at], s[at + 1], s[at + 2], s[at + 3])
  }

  lemma FromBytesOf(n: Word)
    ensures FromBytes(n % 256, n / 256 % 256, n / 65536 % 256, n / 16777216) == n
  {
    var a, b := n / 256, n / 65536;
    assert b == a / 256 && n / 16777216 == b / 256;
  }

  /** A 32-bit size loses what is above 32 bits. */
  function Body(mods: seq<seq<Byte>>): (s: seq<Byte>) {
    if mods == [] then [] else Le32(|mods[0]| % TWO_32) + mods[0] + Body(mods[1..])
  }

  /** What follows the kernel in the image. */
  function Payload(mods: seq<seq<Byte>>): seq<Byte> {
    Le32(|mods| % TWO_32) + Body(mods)
  }

  datatype Option<T> = None | Some(value: T)

  /** Reading n modules back from a position, the way the loader walks through them. */
  function DecodeFrom(s: seq<Byte>, at: nat, n: nat): (r: Option<seq<seq<Byte>>>)
    ensures r.Some? ==> |r.value| == n && forall m <- r.value :: |m| < TWO_32
    decreases n
  {
    if n == 0 then Some([])
    else if at + 4 > |s| || at + 4 + U32(s, at) > |s| then None
    else
      var end := at + 4 + U32(s, at);
      match DecodeFrom(s, end, n - 1)
      case None => None
      case Some(rest) => Some([s[at + 4..end]] + rest)
  }

  function Decode(s: seq<Byte>): Option<seq<seq<Byte>>> {
    if |s| < 4 then None else DecodeFrom(s, 4, U32(s, 0))
  }

  /** The bytes b stand in s from at on. */
  predicate Holds(s: seq<Byte>, at: nat, b: seq<Byte>) {
    at + |b| <= |s| && s[at..at + |b|] == b
  }

  lemma HoldsParts(s: seq<Byte>, at: nat, a: seq<Byte>, b: seq<Byte>)
    requires Holds(s, at, a + b)
    ensures Holds(s, at, a) && Holds(s, at + |a|, b)
  {
    var ab := s[at..at + |a + b|];
    assert s[at..at + |a|] == ab[..|a|] && s[at + |a|..at + |a| + |b|] == ab[|a|..];
  }

  lemma HoldsFits(s: seq<Byte>, at: nat, b: seq<Byte>)
    requires Holds(s, at, b)
    ensures at + |b| <= |s| && s[at..at + |b|] == b
  {
  }

  lemma U32At(s: seq<Byte>, at: nat, n: Word)
    requires Holds(s, at, Le32(n))
    ensures U32(s, at) == n
  {
    FromBytesOf(n);
    var w := s[at..at + 4];
    assert s[at] == w[0] && s[at + 1] == w[1] && s[at + 2] == w[2] && s[at + 3] == w[3];
  }

  /** A body starts with the size of its first module, then the module, then the other ones. */
  lemma BodySplit(s: seq<Byte>, at: nat, mods: seq<seq<Byte>>)
    requires mods != [] && Holds(s, at, Body(mods))
    ensures at + 4 <= |s| && U32(s, at) == |mods[0]| % TWO_32
    ensures Holds(s, at + 4, mods[0]) && Holds(s, at + 4 + |mods[0]|, Body(mods[1..]))
  {
    hide Le32, U32;
    var size := Le32(|mods[0]| % TWO_32);
    assert Body(mods) == (size + mods[0]) + Body(mods[1..]);
    HoldsParts(s, at, size + mods[0], Body(mods[1..]));
    HoldsParts(s, at, size, mods[0]);
    U32At(s, at, |mods[0]| % TWO_32);
  }

  ghost predicate Small(mods: seq<seq<Byte>>) {
    forall m <- mods :: |m| < TWO_32
  }

  lemma {:induction false} DecodeBody(s: seq<Byte>, at: nat, mods: seq<seq<Byte>>)
    requires Holds(s, at, Body(mods)) && Small(mods)
    ensures DecodeFrom(s, at, |mods|) == Some(mods)
    decreases |mods|
  {
    hide Le32, U32, Body;
    if mods != [] {
      BodySplit(s, at, mods);
      HoldsFits(s, at + 4, mods[0]);
      assert mods[0] in mods;
      DecodeBody(s, at + 4 + |mods[0]|, mods[1..]);
      assert [mods[0]] + mods[1..] == mods;
    }
  }

  lemma PayloadSplit(s: seq<Byte>, at: nat, mods: seq<seq<Byte>>)
    requires Holds(s, at, Payload(mods))
    ensures at + 4 <= |s| && U32(s, at) == |mods| % TWO_32 && Holds(s, at + 4, Body(mods))
  {
    hide Le32, U32, Body, Holds;
    var n := |mods| % TWO_32;
    HoldsParts(s, at, Le32(n), Body(mods));
    HoldsFits(s, at, Le32(n));
    U32At(s, at, |mods| % TWO_32);
  }

  /**
   Round trip: a packed image gives back exactly the modules that went into it if and
   only if each of them, and their number, fits into 32 bits.
   */
  lemma PackedImageDecodes(mods: seq<seq<Byte>>)
    ensures Decode(Payload(mods)) == Some(mods) <==> |mods| < TWO_32 && Small(mods)
  {
    hide Le32, U32, Body, Payload, DecodeFrom;
    var s := Payload(mods);
    assert Holds(s, 0, s);
    PayloadSplit(s, 0, mods);
    if |mods| < TWO_32 && Small(mods) { DecodeBody(s, 4, mods); }
  }

  // ----- the packer -----

  class Packer {
    /** The file being written. */
    var target: seq<Byte>

    constructor ()
      ensures target == []
    {
      target := [];
    }

    /** write_file: copies a file in chunks, until a read comes back short. */
    method WriteFile(source: seq<Byte>)
      modifies this
      ensures target == old(target) + source
    {
      var at, eof := 0, false;
      while !eof
        invariant 0 <= at <= |source| && target == old(target) + source[..at] && (eof ==> at == |source|)
        decreases !eof, |source| - at
      {
        var read := if |source| - at < CHUNK then |source| - at else CHUNK;
        target := target + source[at..at + read];
        assert source[..at + read] == source[..at] + source[at..at + read];
        at := at + read;
        eof := read < CHUNK;
      }
    }

    /** write_size */
    method WriteSize(size: nat)
      modifies this
      ensures target == old(target) + Le32(size % TWO_32)
    {
      var size32: Word := size % TWO_32;
      target := target + Le32(size32);
    }

    /** buildImage on an empty target; files[0] is the kernel. */
    method BuildImage(files: seq<seq<Byte>>)
      requires files != [] && target == []
      modifies this
      ensures target == files[0] + Payload(files[1..])
    {
      WriteFile(files[0]);
      var extraBinaries := (|files| - 1) % TWO_32;
      target := target + Le32(extraBinaries);
      ghost var head := target;
      ghost var mods := files[1..];
      var i := 1;
      assert mods[..0] == [];
      while i < |files|
        invariant 1 <= i <= |files| && target == head + Body(mods[..i - 1])
      {
        WriteSize(|files[i]|);
        WriteFile(files[i]);
        BodyAppend(mods[..i - 1], files[i]);
        assert mods[..i] == mods[..i - 1] + [files[i]];
        assert target == head + (Body(mods[..i - 1]) + (Le32(|files[i]| % TWO_32) + files[i]));
        i := i + 1;
      }
      assert mods[..i - 1] == mods;
    }
  }

  lemma {:induction false} BodyAppend(mods: seq<seq<Byte>>, m: seq<Byte>)
    ensures Body(mods + [m]) == Body(mods) + (Le32(|m| % TWO_32) + m)
  {
    hide Le32;
    if mods == [] {
      assert [] + [m] == [m] && [m][1..] == [];
    } else {
      BodyAppend(mods[1..], m);
      assert (mods + [m])[1..] == mods[1..] + [m];
    }
  }

  // ----- memory -----

  /** Memory after the bytes at src have been copied to dst. */
  function Copied(mem: seq<Byte>, dst: nat, src: nat, n: nat): (r: seq<Byte>)
    requires dst + n <= |mem| && src + n <= |mem|
    ensures |r| == |mem|
    ensures forall k | 0 <= k < |mem| :: r[k] == if dst <= k < dst + n then mem[src + (k - dst)] else mem[k]
  {
    mem[..dst] + mem[src..src + n] + mem[dst + n..]
  }

  /** A forward copy reads nothing that it has already overwritten. */
  predicate ForwardSafe(dst: nat, src: nat, n: nat) {
    dst <= src || src + n <= dst
  }

  const WORD := 4

  /** memcpy; both paths do the same to memory. */
  method Memcpy(mem: array<Byte>, destination: nat, source: nat, length: nat)
    requires destination + length <= mem.Length && source + length <= mem.Length
    requires ForwardSafe(destination, source, length)
    modifies mem
    ensures mem[..] == Copied(old(mem[..]), destination, source, length)
  {
    if destination % WORD == 0 && source % WORD == 0 && length % WORD == 0 {
      CopyWords(mem, destination, source, length);
    } else {
      CopyBytes(mem, destination, source, length);
    }
  }

  /** In a safe copy the byte to be copied next is still the one that was there at first. */
  lemma CopiedNext(m: seq<Byte>, destination: nat, source: nat, length: nat, i: nat)
    requires destination + length <= |m| && source + length <= |m| && ForwardSafe(destination, source, length) && i < length
    ensures var c := Copied(m, destination, source, i);
            Copied(m, destination, source, i + 1) == c[destination + i := c[source + i]]
  {
  }

  lemma CopiedNone(m: seq<Byte>, destination: nat, source: nat)
    requires destination <= |m| && source <= |m|
    ensures Copied(m, destination, source, 0) == m
  {
  }

  /** Memory after the word at s has been loaded and stored at d. */
  function WordAt(c: seq<Byte>, d: nat, s: nat): (r: seq<Byte>)
    requires d + WORD <= |c| && s + WORD <= |c|
    ensures |r| == |c|
  {
    c[d := c[s]][d + 1 := c[s + 1]][d + 2 := c[s + 2]][d + 3 := c[s + 3]]
  }

  method CopyWord(mem: array<Byte>, d: nat, s: nat)
    requires d + WORD <= mem.Length && s + WORD <= mem.Length
    modifies mem
    ensures mem[..] == WordAt(old(mem[..]), d, s)
  {
    mem[d], mem[d + 1], mem[d + 2], mem[d + 3] := mem[s], mem[s + 1], mem[s + 2], mem[s + 3];
  }

  /** So are the four bytes of the next word. */
  lemma CopiedWord(m: seq<Byte>, destination: nat, source: nat, length: nat, i: nat)
    requires destination + length <= |m| && source + length <= |m| && ForwardSafe(destination, source, length)
    requires i + WORD <= length
    ensures Copied(m, destination, source, i + WORD)
            == WordAt(Copied(m, destination, source, i), destination + i, source + i)
  {
    hide WordAt;
    var c := Copied(m, destination, source, i);
    var r, w := Copied(m, destination, source, i + WORD), WordAt(c, destination + i, source + i);
    forall k | 0 <= k < |m| ensures r[k] == w[k] { ByteOfWord(c, destination + i, source + i, k); }
  }

  lemma ByteOfWord(c: seq<Byte>, d: nat, s: nat, k: nat)
    requires d + WORD <= |c| && s + WORD <= |c| && k < |c|
    ensures WordAt(c, d, s)[k] == if d <= k < d + WORD then c[s + (k - d)] else c[k]
  {
  }

  method CopyBytes(mem: array<Byte>, destination: nat, source: nat, length: nat)
    requires destination + length <= mem.Length && source + length <= mem.Length
    requires ForwardSafe(destination, source, length)
    modifies mem
    ensures mem[..] == Copied(old(mem[..]), destination, source, length)
  {
    hide Copied;
    var i := 0;
    CopiedNone(mem[..], destination, source);
    while i < length
      invariant 0 <= i <= length
      invariant mem[..] == Copied(old(mem[..]), destination, source, i)
    {
      CopiedNext(old(mem[..]), destination, source, length, i);
      ghost var was := mem[..];
      mem[destination + i] := mem[source + i];
      assert mem[..] == was[destination + i := was[source + i]];
      i := i + 1;
    }
  }

  method CopyWords(mem: array<Byte>, destination: nat, source: nat, length: nat)
    requires destination + length <= mem.Length && source + length <= mem.Length
    requires destination % WORD == 0 && source % WORD == 0 && length % WORD == 0
    requires ForwardSafe(destination, source, length)
    modifies mem
    ensures mem[..] == Copied(old(mem[..]), destination, source, length)
  {
    hide WordAt, Copied;
    var i := 0;
    CopiedNone(mem[..], destination, source);
    while i < length / WORD
      invariant 0 <= i <= length / WORD
      invariant mem[..] == Copied(old(mem[..]), destination, source, WORD * i)
    {
      CopiedWord(old(mem[..]), destination, source, length, WORD * i);
      CopyWord(mem, destination + WORD * i, source + WORD * i);
      i := i + 1;
    }
  }

  /** memset, from the last byte back to the first */
  method Memset(mem: array<Byte>, destination: nat, c: Byte, length: nat)
    requires destination + length <= mem.Length
    modifies mem
    ensures forall k | 0 <= k < mem.Length :: mem[k] == if destination <= k < destination + length then c else old(mem[k])
  {
    var left := length;
    while left > 0
      invariant 0 <= left <= length
      invariant forall k | 0 <= k < mem.Length ::
                  mem[k] == if destination + left <= k < destination + length then c else old(mem[k])
    {
      left := left - 1;
      mem[destination + left] := c;
    }
  }

  // ----- the loader -----

  predicate Disjoint(a: nat, n: nat, b: nat, m: nat) {
    a + n <= b || b + m <= a
  }

  /** Every module has room at its target, clear of the payload and of the other modules. */
  ghost predicate Placed(size: nat, start: nat, targets: seq<nat>, mods: seq<seq<Byte>>) {
    && |mods| <= |targets|
    && (forall i | 0 <= i < |mods| :: targets[i] + |mods[i]| <= size && Disjoint(targets[i], |mods[i]|, start, |Payload(mods)|))
    && forall i, j | 0 <= i < j < |mods| :: Disjoint(targets[i], |mods[i]|, targets[j], |mods[j]|)
  }

  /** The byte at k belongs to the target of one of the first n modules. */
  ghost predicate Covered(k: int, targets: seq<nat>, mods: seq<seq<Byte>>, n: nat)
    requires n <= |mods| <= |targets|
  {
    exists i :: 0 <= i < n && targets[i] <= k < targets[i] + |mods[i]|
  }

  lemma CopyHolds(mem: seq<Byte>, dst: nat, src: nat, b: seq<Byte>)
    requires dst + |b| <= |mem| && Holds(mem, src, b)
    ensures Holds(Copied(mem, dst, src, |b|), dst, b)
  {
    var r := Copied(mem, dst, src, |b|);
    forall k | 0 <= k < |b| ensures r[dst..dst + |b|][k] == b[k] { assert mem[src..src + |b|][k] == b[k]; }
  }

  lemma CopyElsewhere(mem: seq<Byte>, dst: nat, src: nat, n: nat, at: nat, b: seq<Byte>)
    requires dst + n <= |mem| && src + n <= |mem| && Holds(mem, at, b) && Disjoint(dst, n, at, |b|)
    ensures Holds(Copied(mem, dst, src, n), at, b)
  {
    var r := Copied(mem, dst, src, n);
    forall k | 0 <= k < |b| ensures r[at..at + |b|][k] == b[k] { assert mem[at..at + |b|][k] == b[k]; }
  }

  /** readUint32: the number at the cursor, and the cursor behind it */
  method ReadUint32(mem: array<Byte>, address: nat) returns (result: Word, next: nat)
    requires address + 4 <= mem.Length
    ensures result == U32(mem[..], address) && next == address + 4
  {
    result := FromBytes(mem[address], mem[address + 1], mem[address + 2], mem[address + 3]);
    next := address + 4;
  }

  /** loadModule, for a module of n bytes at the cursor */
  method LoadModule(mem: array<Byte>, cursor: nat, target: nat) returns (next: nat)
    requires cursor + 4 <= mem.Length
    requires var n := U32(mem[..], cursor); cursor + 4 + n <= mem.Length && target + n <= mem.Length
    requires var n := U32(mem[..], cursor); Disjoint(target, n, cursor + 4, n)
    modifies mem
    ensures var n := U32(old(mem[..]), cursor); mem[..] == Copied(old(mem[..]), target, cursor + 4, n) && next == cursor + 4 + n
  {
    var size, from := ReadUint32(mem, cursor);
    Memcpy(mem, target, from, size);
    next := from + size;
  }

  /** The first n modules are at their targets, the other ones still in the payload, and nothing else has changed. */
  ghost predicate Loaded(was: seq<Byte>, mem: seq<Byte>, targets: seq<nat>, mods: seq<seq<Byte>>, n: nat) {
    && n <= |mods| <= |targets| && |mem| == |was|
    && (forall i | 0 <= i < n :: Holds(mem, targets[i], mods[i]))
    && forall k | 0 <= k < |mem| && !Covered(k, targets, mods, n) :: mem[k] == was[k]
  }

  lemma LoadedStep(was: seq<Byte>, mem: seq<Byte>, targets: seq<nat>, mods: seq<seq<Byte>>, n: nat, start: nat, cursor: nat)
    requires Loaded(was, mem, targets, mods, n) && n < |mods| && Placed(|mem|, start, targets, mods)
    requires Holds(mem, cursor, mods[n])
    ensures Loaded(was, Copied(mem, targets[n], cursor, |mods[n]|), targets, mods, n + 1)
  {
    var r := Copied(mem, targets[n], cursor, |mods[n]|);
    CopyHolds(mem, targets[n], cursor, mods[n]);
    forall i | 0 <= i < n ensures Holds(r, targets[i], mods[i]) {
      CopyElsewhere(mem, targets[n], cursor, |mods[n]|, targets[i], mods[i]);
    }
    forall k | 0 <= k < |r| && !Covered(k, targets, mods, n + 1) ensures r[k] == was[k] {
      assert !(targets[n] <= k < targets[n] + |mods[n]|);
    }
  }

  /** Where the cursor stands once n modules have been read. */
  function Offset(mods: seq<seq<Byte>>, n: nat): (o: nat)
    requires n <= |mods|
  {
    if n == 0 then 4 else Offset(mods, n - 1) + 4 + |mods[n - 1]|
  }

  lemma {:induction false} OffsetInPayload(mods: seq<seq<Byte>>, n: nat)
    requires n <= |mods|
    ensures Offset(mods, n) + |Body(mods[n..])| == |Payload(mods)|
  {
    if n == 0 {
      assert mods[0..] == mods;
    } else {
      OffsetInPayload(mods, n - 1);
      assert mods[n - 1..][1..] == mods[n..];
    }
  }

  /** Four bytes from at on stand for n, the lowest one first. */
  predicate NumberAt(s: seq<Byte>, at: nat, n: nat) {
    at + 4 <= |s| && n == s[at] as int + 256 * s[at + 1] as int + 65536 * s[at + 2] as int + 16777216 * s[at + 3] as int
  }

  /** The bytes of the sizes and modules in front of module i. */
  function InFront(mods: seq<seq<Byte>>, i: nat): nat
    requires i <= |mods|
  {
    if i == 0 then 0 else 4 + |mods[0]| + InFront(mods[1..], i - 1)
  }

  lemma NumberIs(s: seq<Byte>, at: nat)
    requires at + 4 <= |s|
    ensures NumberAt(s, at, U32(s, at))
  {
  }

  lemma {:induction false} BodyLayout(s: seq<Byte>, at: nat, mods: seq<seq<Byte>>, i: nat)
    requires Holds(s, at, Body(mods)) && i < |mods|
    ensures var pos := at + InFront(mods, i);
            NumberAt(s, pos, |mods[i]| % TWO_32) && Holds(s, pos + 4, mods[i])
    decreases i
  {
    hide Body, U32, Holds, NumberAt;
    BodySplit(s, at, mods);
    if i == 0 { NumberIs(s, at); } else { BodyLayout(s, at + 4 + |mods[0]|, mods[1..], i - 1); }
  }

  /**
   The image byte for byte: the kernel, the number of modules, and for each module its
   size and then its bytes, numbers in four bytes with the lowest one first.
   */
  lemma ImageLayout(files: seq<seq<Byte>>, i: nat)
    requires files != [] && i < |files| - 1
    ensures var (image, mods, at) := (files[0] + Payload(files[1..]), files[1..], |files[0]|);
            && Holds(image, 0, files[0]) && NumberAt(image, at, (|files| - 1) % 0x1_0000_0000)
            && NumberAt(image, at + 4 + InFront(mods, i), |mods[i]| % 0x1_0000_0000)
            && Holds(image, at + 4 + InFront(mods, i) + 4, mods[i])
  {
    hide Body, U32, Payload, NumberAt;
    var image, mods, at := files[0] + Payload(files[1..]), files[1..], |files[0]|;
    assert Holds(image, 0, image);
    HoldsParts(image, 0, files[0], Payload(mods));
    PayloadSplit(image, at, mods);
    NumberIs(image, at);
    BodyLayout(image, at + 4, mods, i);
  }

  /** The payload of an image that has been read into memory starts where its kernel ends. */
  lemma ImageHoldsPayload(mem: seq<Byte>, at: nat, files: seq<seq<Byte>>)
    requires files != [] && Holds(mem, at, files[0] + Payload(files[1..]))
    ensures Holds(mem, at, files[0]) && Holds(mem, at + |files[0]|, Payload(files[1..]))
  {
    HoldsParts(mem, at, files[0], Payload(files[1..]));
  }

  /** Halfway through: n modules are loaded, and the cursor stands at the next one. */
  ghost predicate Loading(was: seq<Byte>, mem: seq<Byte>, start: nat, targets: seq<nat>, mods: seq<seq<Byte>>, n: nat, cursor: nat) {
    && n <= |mods| && cursor == start + Offset(mods, n) && Placed(|mem|, start, targets, mods)
    && Holds(mem, cursor, Body(mods[n..])) && Loaded(was, mem, targets, mods, n)
  }

  lemma LoadingStep(was: seq<Byte>, mem: seq<Byte>, start: nat, targets: seq<nat>, mods: seq<seq<Byte>>, n: nat, cursor: nat)
    requires Loading(was, mem, start, targets, mods, n, cursor) && n < |mods| && Small(mods)
    ensures n < |targets| && cursor + 4 + |mods[n]| <= |mem| && U32(mem, cursor) == |mods[n]|
    ensures targets[n] + |mods[n]| <= |mem| && Disjoint(targets[n], |mods[n]|, cursor + 4, |mods[n]|)
    ensures Loading(was, Copied(mem, targets[n], cursor + 4, |mods[n]|), start, targets, mods, n + 1, cursor + 4 + |mods[n]|)
  {
    hide Le32, U32, Body, Payload, Placed, Holds, Copied, Loaded;
    var m, rest := mods[n], mods[n + 1..];
    OffsetInPayload(mods, n);
    OffsetInPayload(mods, n + 1);
    assert mods[n..][0] == m && mods[n..][1..] == rest && m in mods;
    BodySplit(mem, cursor, mods[n..]);
    HoldsFits(mem, cursor + 4, m);
    HoldsFits(mem, cursor + 4 + |m|, Body(rest));
    PlacedAt(|mem|, start, targets, mods, n);
    LoadedStep(was, mem, targets, mods, n, start, cursor + 4);
    CopyElsewhere(mem, targets[n], cursor + 4, |m|, cursor + 4 + |m|, Body(rest));
  }

  lemma LoadingStart(mem: seq<Byte>, start: nat, targets: seq<nat>, mods: seq<seq<Byte>>)
    requires Holds(mem, start, Payload(mods)) && |mods| < TWO_32 && Placed(|mem|, start, targets, mods)
    ensures start + 4 <= |mem| && U32(mem, start) == |mods|
    ensures Loading(mem, mem, start, targets, mods, 0, start + 4)
  {
    hide Le32, U32, Body, Payload, Holds;
    PayloadSplit(mem, start, mods);
    assert mods[0..] == mods;
  }

  /**
   loadModules: after it every module of the packed payload is, byte for byte, at its
   target, and memory outside the targets is as it was.
   */
  method LoadModules(mem: array<Byte>, payloadStart: nat, targets: seq<nat>, ghost mods: seq<seq<Byte>>)
    requires Holds(mem[..], payloadStart, Payload(mods)) && |mods| < TWO_32 && Small(mods)
    requires Placed(mem.Length, payloadStart, targets, mods)
    modifies mem
    ensures forall i | 0 <= i < |mods| :: Holds(mem[..], targets[i], mods[i])
    ensures forall k | 0 <= k < mem.Length && !Covered(k, targets, mods, |mods|) :: mem[k] == old(mem[k])
  {
    hide U32, Payload, Placed, Holds, Copied, Loading;
    ghost var was := mem[..];
    LoadingStart(was, payloadStart, targets, mods);
    var moduleCount, cursor := ReadUint32(mem, payloadStart);
    var i := 0;
    while i < moduleCount
      invariant 0 <= i <= moduleCount == |mods| && Loading(was, mem[..], payloadStart, targets, mods, i, cursor)
    {
      LoadingStep(was, mem[..], payloadStart, targets, mods, i, cursor);
      cursor := LoadModule(mem, cursor, targets[i]);
      i := i + 1;
    }
    LoadedAtLast(was, mem[..], payloadStart, targets, mods, i, cursor);
    forall k | 0 <= k < mem.Length && !Covered(k, targets, mods, |mods|) ensures mem[k] == old(mem[k]) {
      assert mem[k] == mem[..][k] && was[k] == old(mem[k]);
    }
  }

  lemma LoadedAtLast(was: seq<Byte>, mem: seq<Byte>, start: nat, targets: seq<nat>, mods: seq<seq<Byte>>, n: nat, cursor: nat)
    requires Loading(was, mem, start, targets, mods, n, cursor) && n == |mods|
    ensures |mods| <= |targets| && |mem| == |was|
    ensures forall i | 0 <= i < |mods| :: Holds(mem, targets[i], mods[i])
    ensures forall k | 0 <= k < |mem| && !Covered(k, targets, mods, |mods|) :: mem[k] == was[k]
  {
  }

  lemma PlacedAt(size: nat, start: nat, targets: seq<nat>, mods: seq<seq<Byte>>, i: nat)
    requires Placed(size, start, targets, mods) && i < |mods|
    ensures |mods| <= |targets| && targets[i] + |mods[i]| <= size
    ensures Disjoint(targets[i], |mods[i]|, start, |Payload(mods)|)
  {
  }
}
