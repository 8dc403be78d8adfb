/** The memory under the blanking runtime (replace_probed/decrypt_probe.cpp):
    bytes, page permissions and saved copies. Every method does to memory what
    its counterpart in Blanking does to the set of resident functions. */
module BlankingRuntime {
  import opened Arithmetic
  import opened Blanking

  const MAGIC_OFFSET := 14

  type Byte = b: int | 0 <= b < 256

  datatype Perm = RX | RWX

  // ---- What memory should hold ----------------------------------------------

  /** Byte k lies in the body of the routine at a: past its head, where the probe
      jumps out, for the copied size. */
  predicate InBody(sizes: map<Addr, nat>, a: Addr, k: int) {
    a in sizes && a + 14 <= k < a + 14 + sizes[a]
  }

  ghost predicate Blanked(sizes: map<Addr, nat>, resident: set<Addr>, k: int) {
    exists a :: a !in resident && InBody(sizes, a, k)
  }

  /** Original bytes everywhere, except zero in the bodies of functions that are
      loaded and not resident. */
  ghost function Image(orig: seq<Byte>, sizes: map<Addr, nat>, resident: set<Addr>): (s: seq<Byte>)
    ensures |s| == |orig|
  {
    seq(|orig|, k requires 0 <= k < |orig| => if Blanked(sizes, resident, k) then 0 else orig[k])
  }

  ghost predicate Disjoint(sizes: map<Addr, nat>) {
    forall a, b :: a in sizes && b in sizes && a != b ==>
      a + 14 + sizes[a] <= b || b + 14 + sizes[b] <= a
  }

  function Splice(s: seq<Byte>, at: nat, bytes: seq<Byte>): (t: seq<Byte>)
    requires at + |bytes| <= |s|
    ensures |t| == |s|
  {
    s[..at] + bytes + s[at + |bytes|..]
  }

  function Zeros(n: nat): seq<Byte> {
    seq(n, _ => 0)
  }

  ghost predicate Fits(sizes: map<Addr, nat>, size: nat) {
    Disjoint(sizes) && forall a :: a in sizes ==> a + 14 + sizes[a] < size
  }

  /** What Valid says byte by byte: a body is its original when resident and zero
      otherwise; heads and everything outside the bodies are untouched. */
  lemma ImageMeans(orig: seq<Byte>, sizes: map<Addr, nat>, resident: set<Addr>, a: Addr, k: nat)
    requires Fits(sizes, |orig|) && k < |orig|
    ensures InBody(sizes, a, k) ==> Image(orig, sizes, resident)[k] == if a in resident then orig[k] else 0
    ensures (forall b :: !InBody(sizes, b, k)) ==> Image(orig, sizes, resident)[k] == orig[k]
    ensures a in sizes && a <= k < a + 14 ==> Image(orig, sizes, resident)[k] == orig[k]
  {
    if Blanked(sizes, resident, k) {
      var b: Addr :| b !in resident && InBody(sizes, b, k);
      assert b in sizes;
    }
  }

  lemma ImageRestore(orig: seq<Byte>, sizes: map<Addr, nat>, resident: set<Addr>, a: Addr)
    requires Fits(sizes, |orig|) && a in sizes
    ensures Image(orig, sizes, resident + {a})
      == Splice(Image(orig, sizes, resident), a + 14, orig[a + 14..a + 14 + sizes[a]])
  {
    forall k | 0 <= k < |orig|
      ensures Blanked(sizes, resident + {a}, k) <==> Blanked(sizes, resident, k) && !InBody(sizes, a, k)
    {
      if Blanked(sizes, resident, k) && !InBody(sizes, a, k) {
        var b :| b !in resident && InBody(sizes, b, k);
        assert b !in resident + {a};
      }
    }
  }

  lemma ImageBlank(orig: seq<Byte>, sizes: map<Addr, nat>, resident: set<Addr>, a: Addr)
    requires Fits(sizes, |orig|) && a in sizes
    ensures Image(orig, sizes, resident - {a})
      == Splice(Image(orig, sizes, resident), a + 14, Zeros(sizes[a]))
  {
    forall k | 0 <= k < |orig|
      ensures Blanked(sizes, resident - {a}, k) <==> Blanked(sizes, resident, k) || InBody(sizes, a, k)
    {
      if Blanked(sizes, resident, k) {
        var b :| b !in resident && InBody(sizes, b, k);
        assert b !in resident - {a};
      }
      if InBody(sizes, a, k) {
        assert a !in resident - {a};
      }
    }
  }

  /** A routine disjoint from all others still has its own bytes when it is loaded. */
  lemma ImageLoad(orig: seq<Byte>, sizes: map<Addr, nat>, resident: set<Addr>, a: Addr, size: nat)
    requires a !in sizes && Fits(sizes[a := size], |orig|) && a !in resident
    ensures a in sizes[a := size] && a + 14 + size < |orig|
    ensures Image(orig, sizes, resident)[a + 14..a + 14 + size] == orig[a + 14..a + 14 + size]
    ensures Image(orig, sizes[a := size], resident)
      == Splice(Image(orig, sizes, resident), a + 14, Zeros(size))
  {
    var sizes' := sizes[a := size];
    assert a in sizes' && sizes'[a] == size;
    forall k | 0 <= k < |orig|
      ensures Blanked(sizes', resident, k) <==> Blanked(sizes, resident, k) || InBody(sizes', a, k)
      ensures InBody(sizes', a, k) ==> !Blanked(sizes, resident, k)
    {
      if Blanked(sizes, resident, k) {
        var b :| b !in resident && InBody(sizes, b, k);
        assert InBody(sizes', b, k);
      }
      if Blanked(sizes', resident, k) {
        var b :| b !in resident && InBody(sizes', b, k);
        assert b == a || InBody(sizes, b, k);
      }
    }
    forall k | a + 14 <= k < a + 14 + size ensures Image(orig, sizes, resident)[k] == orig[k] {
      assert InBody(sizes', a, k);
    }
  }

  /** The original body of a routine. */
  function Body(orig: seq<Byte>, a: Addr, size: nat): seq<Byte>
    requires a + 14 + size <= |orig|
  {
    orig[a + 14..a + 14 + size]
  }

  lemma ImageBody(orig: seq<Byte>, sizes: map<Addr, nat>, resident: set<Addr>, a: Addr)
    requires Fits(sizes, |orig|) && a in sizes
    ensures Body(Image(orig, sizes, resident), a, sizes[a])
      == if a in resident then Body(orig, a, sizes[a]) else Zeros(sizes[a])
  {
    forall k | a + 14 <= k < a + 14 + sizes[a]
      ensures Image(orig, sizes, resident)[k] == if a in resident then orig[k] else 0
    {
      ImageMeans(orig, sizes, resident, a, k);
    }
  }

  /** Blanking a body while its routine counts as resident is harmless exactly for a body
      of zeros. */
  lemma BlankedResidentIff(orig: seq<Byte>, sizes: map<Addr, nat>, resident: set<Addr>, a: Addr)
    requires Fits(sizes, |orig|) && a in sizes && a in resident
    ensures Image(orig, sizes, resident - {a}) == Image(orig, sizes, resident)
      <==> Body(orig, a, sizes[a]) == Zeros(sizes[a])
  {
    ImageBody(orig, sizes, resident, a);
    ImageBody(orig, sizes, resident - {a}, a);
    if Body(orig, a, sizes[a]) == Zeros(sizes[a]) {
      ImageBlank(orig, sizes, resident, a);
      SpliceSame(Image(orig, sizes, resident), a + 14, Zeros(sizes[a]));
    }
  }

  lemma SpliceSame(s: seq<Byte>, at: nat, bytes: seq<Byte>)
    requires at + |bytes| <= |s| && s[at..at + |bytes|] == bytes
    ensures Splice(s, at, bytes) == s
  {
  }

  // ---- Pages ----------------------------------------------------------------

  /** The remapping of [addr, addr + size_cp] reaches the last byte stored at
      offset 14. */
  predicate Covered(pageSize: nat, addr: Addr, size: nat)
    requires pageSize > 0
  {
    (addr + size) % pageSize <= pageSize - 14
  }

  lemma CoveredMeans(pageSize: nat, addr: Addr, size: nat)
    requires pageSize > 0
    ensures Covered(pageSize, addr, size) <==> (addr + 13 + size) / pageSize <= (addr + size) / pageSize
  {
    var q, r := (addr + size) / pageSize, (addr + size) % pageSize;
    assert addr + size == q * pageSize + r;
    if r + 13 < pageSize {
      DivModIs(addr + 13 + size, pageSize, q, r + 13);
    } else {
      DivAtLeast(addr + 13 + size, pageSize, q + 1);
    }
  }

  /** The pages that meet [addr, addr + size]. */
  predicate Meets(pageSize: nat, addr: Addr, size: nat, page: int)
    requires pageSize > 0
  {
    addr / pageSize <= page <= (addr + size) / pageSize
  }

  lemma PageInRange(pageSize: nat, pages: nat, k: nat)
    requires pageSize > 0 && k < pageSize * pages
    ensures k / pageSize < pages
  {
    if k / pageSize >= pages {
      MulLe(pages, k / pageSize, pageSize);
    }
  }

  /** Process memory: bytes in pages, each with its permission. */
  class Memory {
    const pageSize: nat
    const bytes: array<Byte>
    const perms: array<Perm>
    // Covered for this page size, as a value.
    ghost const reaches: (Addr, nat) -> bool

    ghost predicate Ok()
    {
      && pageSize > 0 && bytes.Length == pageSize * perms.Length && bytes as object != perms
      && forall a, size {:trigger Covered(pageSize, a, size)} :: Covered(pageSize, a, size) <==> reaches(a, size)
    }

    ghost predicate AtRest()
      reads perms
    {
      forall page :: 0 <= page < perms.Length ==> perms[page] == RX
    }

    constructor (pageSize: nat, content: seq<Byte>, pages: nat)
      requires pageSize > 0 && |content| == pageSize * pages
      ensures Ok() && AtRest() && bytes[..] == content && this.pageSize == pageSize
      ensures fresh(bytes) && fresh(perms)
    {
      this.pageSize := pageSize;
      bytes := new Byte[|content|](i requires 0 <= i < |content| => content[i]);
      perms := new Perm[pages](_ => RX);
      reaches := (a: Addr, size: nat) => Covered(pageSize, a, size);
      new;
      assert bytes[..] == content;
    }

    /** mprotect from a page boundary on. */
    method Mprotect(base: nat, len: nat, perm: Perm)
      requires Ok() && base % pageSize == 0 && len % pageSize == 0
      requires base / pageSize + len / pageSize <= perms.Length
      modifies perms
      ensures forall page :: 0 <= page < perms.Length ==> (perms[page] ==
        if base / pageSize <= page < base / pageSize + len / pageSize then perm else old(perms[page]))
    {
      var first, count := base / pageSize, len / pageSize;
      forall page | first <= page < first + count { perms[page] := perm; }
    }

    /** remap_permissions: exactly the pages that meet [addr, addr + size]. */
    method Remap(addr: Addr, size: nat, perm: Perm)
      requires Ok() && addr + size < bytes.Length
      modifies perms
      ensures forall page :: 0 <= page < perms.Length ==>
        (perms[page] == if Meets(pageSize, addr, size, page) then perm else old(perms[page]))
    {
      var base := addr / pageSize * pageSize;
      var end := (addr + size) / pageSize * pageSize;
      DivMonotone(addr, addr + size, pageSize);
      MulLe(addr / pageSize, (addr + size) / pageSize, pageSize);
      var span := pageSize + (end - base);
      ghost var first, last := addr / pageSize, (addr + size) / pageSize;
      assert span == (last - first + 1) * pageSize + 0;
      DivModIs(span, pageSize, last - first + 1, 0);
      DivModIs(base, pageSize, first, 0);
      PageInRange(pageSize, perms.Length, addr + size);
      Mprotect(base, span, perm);
    }

    ghost predicate WritablePages(at: nat, n: nat)
      requires Ok() && n > 0 && at + n <= bytes.Length
      reads perms
    {
      forall page :: 0 <= page < perms.Length && at / pageSize <= page <= (at + n - 1) / pageSize ==> perms[page] == RWX
    }

    method CheckPages(first: nat, last: nat) returns (ok: bool)
      requires first <= last < perms.Length
      ensures ok == forall page :: first <= page <= last ==> perms[page] == RWX
    {
      for page := first to last + 1
        invariant forall q :: first <= q < page ==> perms[q] == RWX
      {
        if perms[page] != RWX { return false; }
      }
      ok := true;
    }

    method CheckWritable(at: nat, n: nat) returns (ok: bool)
      requires Ok() && n > 0 && at + n <= bytes.Length
      ensures ok == WritablePages(at, n)
    {
      PageInRange(pageSize, perms.Length, at + n - 1);
      DivMonotone(at, at + n - 1, pageSize);
      ok := CheckPages(at / pageSize, (at + n - 1) / pageSize);
    }

    method Put(at: nat, data: seq<Byte>)
      requires at + |data| <= bytes.Length
      modifies bytes
      ensures bytes[..] == Splice(old(bytes[..]), at, data)
    {
      forall i | 0 <= i < |data| { bytes[at + i] := data[i]; }
    }

    /** A store of n bytes at `at`: memcpy or memset. It faults, and the process is
        gone, when it meets a page that is not writable. */
    method Store(at: nat, data: seq<Byte>) returns (ok: bool)
      requires Ok() && |data| > 0 && at + |data| <= bytes.Length
      modifies bytes
      ensures ok == old(WritablePages(at, |data|))
      ensures bytes[..] == if ok then Splice(old(bytes[..]), at, data) else old(bytes[..])
    {
      ok := CheckWritable(at, |data|);
      if ok {
        Put(at, data);
      }
    }
  }

  function Addrs(byName: map<Name, (Addr, nat)>): map<Name, Addr> {
    map n | n in byName :: byName[n].0
  }

  lemma AddrsUpdate(byName: map<Name, (Addr, nat)>, name: Name, a: Addr, size: nat)
    ensures Addrs(byName[name := (a, size)]) == Addrs(byName)[name := a]
  {
  }

  /** The chain of the names taken so far, when n is taken from the rest. */
  lemma ChainNext(byName: map<Name, Addr>, names: set<Name>, rest: set<Name>, n: Name)
    requires rest <= names && n in rest
    ensures Chain(byName, names - (rest - {n}))
      == Chain(byName, names - rest) + if n in byName then {byName[n]} else {}
  {
  }

  lemma ResidentAlready(a: set<Addr>)
    ensures a + {} == a
  {
  }

  lemma UnionJoin(a: set<Addr>, b: set<Addr>, c: set<Addr>)
    ensures (a + b) + c == a + (b + c)
  {
  }

  /** What the loader records: name, size and saved body of every routine, and the
      last routine loaded under each name. */
  datatype Tables = Tables(addrToName: map<Addr, Name>, addrToSize: map<Addr, nat>,
                           addrToCopy: map<Addr, seq<Byte>>, nameToAddrAndSize: map<Name, (Addr, nat)>)
  {
    function With(name: Name, a: Addr, size: nat, copy: seq<Byte>): Tables {
      Tables(addrToName[a := name], addrToSize[a := size], addrToCopy[a := copy],
             nameToAddrAndSize[name := (a, size)])
    }
  }

  /** The entries of a routine agree, and its saved body is the original one. */
  ghost predicate RoutineOk(t: Tables, orig: seq<Byte>, a: Addr) {
    && a in t.addrToName && a in t.addrToSize && a in t.addrToCopy
    && t.addrToSize[a] > 0 && a + 14 + t.addrToSize[a] < |orig|
    && t.addrToCopy[a] == orig[a + 14..a + 14 + t.addrToSize[a]]
  }

  ghost predicate NamedOk(t: Tables, n: Name) {
    n in t.nameToAddrAndSize
    && var (a, size) := t.nameToAddrAndSize[n]; a in t.addrToSize && size == t.addrToSize[a]
  }

  ghost predicate TablesOk(t: Tables, orig: seq<Byte>)
  {
    && (forall a :: a in t.addrToName || a in t.addrToSize || a in t.addrToCopy ==> RoutineOk(t, orig, a))
    && (forall n :: n in t.nameToAddrAndSize ==> NamedOk(t, n))
    && Fits(t.addrToSize, |orig|)
  }

  /** Stores at offset 14 reach the whole body of each of these routines. */
  ghost predicate AllCovered(addrs: set<Addr>, sizes: map<Addr, nat>, reaches: (Addr, nat) -> bool) {
    forall b :: b in addrs ==> b in sizes && reaches(b, sizes[b])
  }

  /** A name whose routine is not covered spoils every chain it is in. */
  lemma NameNotCovered(byName: map<Name, Addr>, names: set<Name>, n: Name, sizes: map<Addr, nat>,
                       reaches: (Addr, nat) -> bool)
    requires n in names && !AllCovered(if n in byName then {byName[n]} else {}, sizes, reaches)
    ensures !AllCovered(Chain(byName, names), sizes, reaches)
  {
    assert n in byName && byName[n] in Chain(byName, names);
  }

  /** Recording a routine a second time keeps the tables right exactly when the bytes
      saved the second time are still its original ones. */
  lemma TablesReloadIff(t: Tables, orig: seq<Byte>, name: Name, a: Addr, copy: seq<Byte>)
    requires TablesOk(t, orig) && RoutineOk(t, orig, a) && t.addrToName[a] == name
    ensures TablesOk(t.With(name, a, t.addrToSize[a], copy), orig) <==> copy == Body(orig, a, t.addrToSize[a])
  {
    if copy == Body(orig, a, t.addrToSize[a]) {
      TablesReload(t, orig, name, a, copy);
    } else {
      WrongCopy(t, orig, name, a, copy);
    }
  }

  /** The same name and size again leave those tables alone. */
  lemma SameSizes(t: Tables, name: Name, a: Addr, copy: seq<Byte>)
    requires a in t.addrToName && t.addrToName[a] == name && a in t.addrToSize
    ensures var t' := t.With(name, a, t.addrToSize[a], copy);
            t'.addrToSize == t.addrToSize && t'.addrToName == t.addrToName
  {
  }

  lemma WrongCopy(t: Tables, orig: seq<Byte>, name: Name, a: Addr, copy: seq<Byte>)
    requires RoutineOk(t, orig, a) && copy != Body(orig, a, t.addrToSize[a])
    ensures !TablesOk(t.With(name, a, t.addrToSize[a], copy), orig)
  {
    assert !RoutineOk(t.With(name, a, t.addrToSize[a], copy), orig, a);
  }

  lemma TablesReload(t: Tables, orig: seq<Byte>, name: Name, a: Addr, copy: seq<Byte>)
    requires TablesOk(t, orig) && RoutineOk(t, orig, a) && t.addrToName[a] == name
    requires copy == Body(orig, a, t.addrToSize[a])
    ensures TablesOk(t.With(name, a, t.addrToSize[a], copy), orig)
  {
    SameSizes(t, name, a, copy);
    ReloadedRoutines(t, orig, name, a, copy);
    ReloadedNames(t, name, a, copy);
  }

  lemma ReloadedNames(t: Tables, name: Name, a: Addr, copy: seq<Byte>)
    requires a in t.addrToSize && forall n :: n in t.nameToAddrAndSize ==> NamedOk(t, n)
    ensures var t' := t.With(name, a, t.addrToSize[a], copy); forall n :: n in t'.nameToAddrAndSize ==> NamedOk(t', n)
  {
    var t' := t.With(name, a, t.addrToSize[a], copy);
    forall n | n in t'.nameToAddrAndSize ensures NamedOk(t', n) {
      if n != name { assert NamedOk(t, n); }
    }
  }

  /** What a second load saves. */
  function SavedAgain(orig: seq<Byte>, a: Addr, size: nat, resident: bool): seq<Byte>
    requires a + 14 + size <= |orig|
  {
    if resident then Body(orig, a, size) else Zeros(size)
  }

  /** Tables and memory stay sound over a second load exactly for a body of zeros. */
  lemma ReloadIff(t: Tables, orig: seq<Byte>, name: Name, a: Addr, copy: seq<Byte>, copied: map<Addr, nat>)
    requires TablesOk(t, orig) && RoutineOk(t, orig, a) && t.addrToName[a] == name
    requires copy == SavedAgain(orig, a, t.addrToSize[a], a in copied)
    ensures var t' := t.With(name, a, t.addrToSize[a], copy);
            && t'.addrToSize == t.addrToSize
            && (TablesOk(t', orig)
                && Image(orig, t.addrToSize, copied.Keys - {a}) == Image(orig, t.addrToSize, copied.Keys)
                <==> Body(orig, a, t.addrToSize[a]) == Zeros(t.addrToSize[a]))
  {
    SameSizes(t, name, a, copy);
    TablesReloadIff(t, orig, name, a, copy);
    if a in copied {
      BlankedResidentIff(orig, t.addrToSize, copied.Keys, a);
    } else {
      assert copied.Keys - {a} == copied.Keys;
    }
  }

  lemma ReloadedRoutines(t: Tables, orig: seq<Byte>, name: Name, a: Addr, copy: seq<Byte>)
    requires TablesOk(t, orig) && RoutineOk(t, orig, a) && copy == Body(orig, a, t.addrToSize[a])
    ensures var t' := t.With(name, a, t.addrToSize[a], copy);
            forall b :: b in t'.addrToName || b in t'.addrToSize || b in t'.addrToCopy ==> RoutineOk(t', orig, b)
  {
    var t' := t.With(name, a, t.addrToSize[a], copy);
    forall b | b in t'.addrToName || b in t'.addrToSize || b in t'.addrToCopy ensures RoutineOk(t', orig, b) {
      if b != a { assert RoutineOk(t, orig, b); }
    }
  }

  /** What copied_funcs records: resident routines, all of which stores can reach. */
  ghost predicate CopiedOk(copied: map<Addr, nat>, sizes: map<Addr, nat>, reaches: (Addr, nat) -> bool)
  {
    forall a :: a in copied ==> a in sizes && copied[a] == sizes[a] && reaches(a, sizes[a])
  }

  /** Storing the saved body of a routine makes it resident. */
  lemma RestoredImage(t: Tables, orig: seq<Byte>, copied: map<Addr, nat>, a: Addr)
    requires TablesOk(t, orig) && a in t.addrToSize
    ensures RoutineOk(t, orig, a) && |t.addrToCopy[a]| == t.addrToSize[a]
    ensures Image(orig, t.addrToSize, copied[a := t.addrToSize[a]].Keys)
      == Splice(Image(orig, t.addrToSize, copied.Keys), a + 14, t.addrToCopy[a])
  {
    assert RoutineOk(t, orig, a);
    ImageRestore(orig, t.addrToSize, copied.Keys, a);
    assert copied[a := t.addrToSize[a]].Keys == copied.Keys + {a};
  }

  lemma RoutineLoad(t: Tables, orig: seq<Byte>, name: Name, a: Addr, size: nat, b: Addr)
    requires a + 14 + size < |orig| && size > 0
    requires b != a ==> RoutineOk(t, orig, b)
    ensures RoutineOk(t.With(name, a, size, orig[a + 14..a + 14 + size]), orig, b)
  {
  }

  lemma TablesLoad(t: Tables, orig: seq<Byte>, name: Name, a: Addr, size: nat)
    requires TablesOk(t, orig) && a !in t.addrToSize
    requires size > 0 && Fits(t.addrToSize[a := size], |orig|) && a + 14 + size < |orig|
    ensures TablesOk(t.With(name, a, size, orig[a + 14..a + 14 + size]), orig)
    ensures Addrs(t.With(name, a, size, orig[a + 14..a + 14 + size]).nameToAddrAndSize)
      == Addrs(t.nameToAddrAndSize)[name := a]
  {
    AddrsUpdate(t.nameToAddrAndSize, name, a, size);
    var t' := t.With(name, a, size, orig[a + 14..a + 14 + size]);
    forall b | b in t'.addrToName || b in t'.addrToSize || b in t'.addrToCopy
      ensures RoutineOk(t', orig, b)
    {
      RoutineLoad(t, orig, name, a, size, b);
    }
    NamesLoad(t, name, a, size, orig[a + 14..a + 14 + size]);
  }

  lemma NamesLoad(t: Tables, name: Name, a: Addr, size: nat, copy: seq<Byte>)
    requires a !in t.addrToSize && forall n :: n in t.nameToAddrAndSize ==> NamedOk(t, n)
    ensures var t' := t.With(name, a, size, copy); forall n :: n in t'.nameToAddrAndSize ==> NamedOk(t', n)
  {
    var t' := t.With(name, a, size, copy);
    forall n | n in t'.nameToAddrAndSize ensures NamedOk(t', n) {
      if n != name { assert NamedOk(t, n); }
    }
  }

  /** A routine that was not loaded is in no table. */
  lemma NewIsNew(t: Tables, orig: seq<Byte>, copied: map<Addr, nat>, reaches: (Addr, nat) -> bool, a: Addr)
    requires TablesOk(t, orig) && CopiedOk(copied, t.addrToSize, reaches) && a !in t.addrToName
    ensures a !in t.addrToSize && a !in copied
  {
  }

  lemma CopiedLoad(copied: map<Addr, nat>, sizes: map<Addr, nat>, reaches: (Addr, nat) -> bool, a: Addr, size: nat)
    requires CopiedOk(copied, sizes, reaches) && a !in sizes
    ensures CopiedOk(copied, sizes[a := size], reaches) && a !in copied
  {
  }

  /** The state of the probes. */
  class Runtime {
    const mem: Memory
    var predSets: PredSets
    var predSetIdx: nat
    var oldPredSetIdx: nat
    var copiedFuncs: map<Addr, nat>
    var t: Tables
    ghost const orig: seq<Byte>

    /** The same state as a machine over sets of functions. */
    ghost function Abstract(): Machine
      reads this
    {
      Machine(t.addrToName, Addrs(t.nameToAddrAndSize), copiedFuncs.Keys, predSetIdx)
    }

    /** Between events: bodies are original or zero as the resident set says, saved
        copies are original, no page is writable. */
    ghost predicate Valid()
      reads this, mem.bytes, mem.perms
    {
      && mem.Ok() && mem.bytes.Length == |orig| && mem.pageSize > 0
      && TablesOk(t, orig)
      && CopiedOk(copiedFuncs, t.addrToSize, mem.reaches)
      && mem.bytes[..] == Image(orig, t.addrToSize, copiedFuncs.Keys)
      && mem.AtRest()
    }

    /** Start-up: nothing loaded, index 0 (init_pred_sets_stub resets it too). */
    constructor (mem: Memory, predSets: PredSets)
      requires mem.Ok() && mem.AtRest()
      ensures Valid() && this.mem == mem && orig == mem.bytes[..] && this.predSets == predSets
      ensures Abstract() == START
    {
      this.mem := mem;
      this.predSets := predSets;
      predSetIdx, oldPredSetIdx := 0, 0;
      copiedFuncs, t := map[], Tables(map[], map[], map[], map[]);
      orig := mem.bytes[..];
      new;
      assert mem.bytes[..] == Image(orig, t.addrToSize, copiedFuncs.Keys);
    }

    /** Make the routine at a writable, store its body, and seal it again. The store
        faults exactly when the body runs on past the last remapped page. */
    method StoreBody(a: Addr, data: seq<Byte>) returns (ok: bool)
      requires mem.Ok() && mem.AtRest() && |data| > 0 && a + 14 + |data| < mem.bytes.Length
      modifies mem.bytes, mem.perms
      ensures ok == mem.reaches(a, |data|)
      ensures ok ==> mem.AtRest() && mem.bytes[..] == Splice(old(mem.bytes[..]), a + MAGIC_OFFSET, data)
    {
      mem.Remap(a, |data|, RWX);
      CoveredMeans(mem.pageSize, a, |data|);
      DivMonotone(a, a + 14, mem.pageSize);
      PageInRange(mem.pageSize, mem.perms.Length, a + 13 + |data|);
      DivMonotone(a + 14, a + 13 + |data|, mem.pageSize);
      if !Covered(mem.pageSize, a, |data|) {
        assert mem.perms[(a + 13 + |data|) / mem.pageSize] == RX;
      }
      ok := mem.Store(a + MAGIC_OFFSET, data);
      if ok {
        mem.Remap(a, |data|, RX);
      }
    }

    /** probe_copy_aux: bring back the body of the loaded function at a. */
    method ProbeCopyAux(a: Addr) returns (ok: bool)
      requires Valid() && a in t.addrToSize
      modifies this`copiedFuncs, mem.bytes, mem.perms
      ensures ok == mem.reaches(a, t.addrToSize[a])
      ensures ok ==> Valid() && copiedFuncs == old(copiedFuncs)[a := t.addrToSize[a]]
    {
      RestoredImage(t, orig, copiedFuncs, a);
      ok := StoreBody(a, t.addrToCopy[a]);
      if ok {
        copiedFuncs := copiedFuncs[a := t.addrToSize[a]];
      }
    }

    /** probe_copy: what entering the function at a does before its body runs. */
    method ProbeCopy(a: Addr) returns (ok: bool)
      requires Valid() && a in t.addrToName && predSetIdx < |predSets|
      modifies this`copiedFuncs, mem.bytes, mem.perms
      ensures ok == AllCovered(Touched(predSets, old(Abstract()), a), t.addrToSize, mem.reaches)
      ensures var before := old(Abstract());
        ok ==> Valid() && Abstract() == before.(resident := before.resident + Touched(predSets, before, a))
    {
      if a in copiedFuncs {
        ResidentAlready(copiedFuncs.Keys);
        return true;
      }
      if t.addrToName[a] in predSets[predSetIdx] {
        ok := CopyChain(predSets[predSetIdx]);
      } else {
        ok := CopyOne(a);
      }
    }

    /** A function that is not predicted is brought back alone. */
    method CopyOne(a: Addr) returns (ok: bool)
      requires Valid() && a in t.addrToSize
      modifies this`copiedFuncs, mem.bytes, mem.perms
      ensures ok == AllCovered({a}, t.addrToSize, mem.reaches)
      ensures ok ==> Valid() && copiedFuncs.Keys == old(copiedFuncs).Keys + {a}
    {
      ok := ProbeCopyAux(a);
    }

    /** The loop of probe_copy over the predicted names. */
    method CopyChain(names: set<Name>) returns (ok: bool)
      requires Valid()
      modifies this`copiedFuncs, mem.bytes, mem.perms
      ensures var chain := Chain(Addrs(t.nameToAddrAndSize), names);
        && ok == AllCovered(chain, t.addrToSize, mem.reaches)
        && (ok ==> Valid() && copiedFuncs.Keys == old(copiedFuncs).Keys + chain)
    {
      ok := true;
      ghost var byName, chain := Addrs(t.nameToAddrAndSize), {};
      var rest := names;
      while rest != {}
        invariant Valid() && rest <= names && chain == Chain(byName, names - rest)
        invariant copiedFuncs.Keys == old(copiedFuncs).Keys + chain
        invariant AllCovered(chain, t.addrToSize, mem.reaches)
        decreases |rest|
      {
        var n :| n in rest;
        ghost var added := if n in byName then {byName[n]} else {};
        ChainNext(byName, names, rest, n);
        rest := rest - {n};
        UnionJoin(old(copiedFuncs).Keys, chain, added);
        chain := chain + added;
        ok := CopyNamed(n, added);
        if !ok {
          NameNotCovered(byName, names, n, t.addrToSize, mem.reaches);
          return;
        }
      }
      assert names - rest == names;
    }

    /** One turn of that loop: names without a loaded function are skipped. */
    method CopyNamed(n: Name, ghost added: set<Addr>) returns (ok: bool)
      requires Valid() && added == if n in t.nameToAddrAndSize then {t.nameToAddrAndSize[n].0} else {}
      modifies this`copiedFuncs, mem.bytes, mem.perms
      ensures ok == AllCovered(added, t.addrToSize, mem.reaches)
      ensures ok ==> Valid() && copiedFuncs.Keys == old(copiedFuncs).Keys + added
    {
      ok := true;
      if n in t.nameToAddrAndSize {
        ok := CopyOne(t.nameToAddrAndSize[n].0);
      }
    }

    /** probe_blank_aux: blank every resident function. The stores cannot fault. */
    method ProbeBlankAux()
      requires Valid()
      modifies this`copiedFuncs, mem.bytes, mem.perms
      ensures Valid() && copiedFuncs == map[] && copiedFuncs.Keys == {}
    {
      BlankAll();
      copiedFuncs := map[];
      assert copiedFuncs.Keys == {};
    }

    method BlankAll()
      requires Valid()
      modifies mem.bytes, mem.perms
      ensures mem.bytes[..] == Image(orig, t.addrToSize, {}) && mem.AtRest()
    {
      var rest := copiedFuncs.Keys;
      while rest != {}
        invariant rest <= copiedFuncs.Keys
        invariant mem.bytes[..] == Image(orig, t.addrToSize, rest) && mem.AtRest()
        decreases |rest|
      {
        var a :| a in rest;
        BlankBody(a, copiedFuncs[a], rest);
        rest := rest - {a};
      }
    }

    /** One turn of that loop. */
    method BlankBody(a: Addr, size: nat, ghost resident: set<Addr>)
      requires mem.Ok() && mem.bytes.Length == |orig| && mem.AtRest()
      requires TablesOk(t, orig)
      requires a in t.addrToSize && size == t.addrToSize[a] && mem.reaches(a, size)
      requires mem.bytes[..] == Image(orig, t.addrToSize, resident)
      modifies mem.bytes, mem.perms
      ensures mem.AtRest() && mem.bytes[..] == Image(orig, t.addrToSize, resident - {a})
    {
      assert RoutineOk(t, orig, a);
      var _ := StoreBody(a, Zeros(size));
      ImageBlank(orig, t.addrToSize, resident, a);
    }

    /** probe_blankit_predict. */
    method PredictEager(i: nat)
      requires Valid() && i < |predSets|
      modifies this`copiedFuncs, this`predSetIdx, mem.bytes, mem.perms
      ensures Valid() && Abstract() == Step(predSets, false, old(Abstract()), Predict(i))
    {
      ProbeBlankAux();
      predSetIdx := i;
    }

    /** probe_blankit_predict_lazy. */
    method PredictLazy(i: nat)
      requires Valid() && i < |predSets|
      modifies this`copiedFuncs, this`predSetIdx, this`oldPredSetIdx, mem.bytes, mem.perms
      ensures Valid() && Abstract() == Step(predSets, true, old(Abstract()), Predict(i))
    {
      oldPredSetIdx := predSetIdx;
      predSetIdx := i;
      if oldPredSetIdx != predSetIdx {
        ProbeBlankAux();
      }
    }

    /** image_load for one routine of the approved list: too small a routine gets no
        probe; otherwise its body is saved and zeroed. The whole routine size is
        remapped here, so these stores cannot fault. A routine that is listed twice has
        the same name and size both times. */
    method LoadRoutine(name: Name, a: Addr, routineSize: nat)
      requires Valid()
      requires a in t.addrToName ==>
        a in t.addrToSize && t.addrToName[a] == name && t.addrToSize[a] + MAGIC_OFFSET == routineSize
      requires a !in t.addrToName && routineSize > MAGIC_OFFSET ==>
        Fits(t.addrToSize[a := routineSize - MAGIC_OFFSET], |orig|)
      modifies this`t, mem.bytes, mem.perms
      ensures routineSize <= MAGIC_OFFSET ==> Valid() && t == old(t)
      ensures routineSize > MAGIC_OFFSET && a !in old(t.addrToName) ==>
        Valid() && Abstract() == Step(predSets, false, old(Abstract()), Load(name, a))
      ensures routineSize > MAGIC_OFFSET && a !in old(t.addrToName) ==>
        t.addrToSize == old(t.addrToSize)[a := routineSize - MAGIC_OFFSET]
      ensures routineSize > MAGIC_OFFSET && a in old(t.addrToName) ==> Reloaded(old(t), name, a)
    {
      if routineSize <= MAGIC_OFFSET {
        assert a in t.addrToName ==> RoutineOk(t, orig, a);
        return;
      }
      if a in t.addrToName {
        ReloadRoutine(name, a, routineSize);
      } else {
        AddRoutine(name, a, routineSize);
      }
    }

    /** After a second load of a routine its body is zero, resident or not, and what was
        saved is what the body held: the original bytes if it was resident, and zeros if
        it was not. So the state is sound exactly if the body is all zeros anyway. */
    ghost predicate Reloaded(before: Tables, name: Name, a: Addr)
      reads this, mem.bytes, mem.perms
    {
      && a in before.addrToSize && a + 14 + before.addrToSize[a] < |orig| == mem.bytes.Length
      && var size := before.addrToSize[a];
      && t == before.With(name, a, size, SavedAgain(orig, a, size, a in copiedFuncs))
      && mem.bytes[..] == Image(orig, before.addrToSize, copiedFuncs.Keys - {a})
      && mem.AtRest()
      && (Valid() <==> Body(orig, a, size) == Zeros(size))
    }

    /** The body of a loaded routine is saved as it is, and blanked. */
    method SaveAndBlank(a: Addr, routineSize: nat) returns (copy: seq<Byte>)
      requires Valid() && a in t.addrToSize && t.addrToSize[a] + MAGIC_OFFSET == routineSize
      requires RoutineOk(t, orig, a)
      modifies mem.bytes, mem.perms
      ensures copy == SavedAgain(orig, a, t.addrToSize[a], a in copiedFuncs)
      ensures mem.bytes[..] == Image(orig, t.addrToSize, copiedFuncs.Keys - {a}) && mem.AtRest()
    {
      ImageBody(orig, t.addrToSize, copiedFuncs.Keys, a);
      ImageBlank(orig, t.addrToSize, copiedFuncs.Keys, a);
      copy := mem.bytes[a + MAGIC_OFFSET..a + routineSize];
      assert copy == Body(mem.bytes[..], a, t.addrToSize[a]);
      BlankLoaded(a, routineSize);
    }

    method ReloadRoutine(name: Name, a: Addr, routineSize: nat)
      requires Valid() && a in t.addrToName && a in t.addrToSize
      requires t.addrToName[a] == name && t.addrToSize[a] + MAGIC_OFFSET == routineSize
      modifies this`t, mem.bytes, mem.perms
      ensures Reloaded(old(t), name, a)
    {
      assert RoutineOk(t, orig, a);
      var copy := SaveAndBlank(a, routineSize);
      SameSizes(t, name, a, copy);
      ReloadIff(t, orig, name, a, copy, copiedFuncs);
      t := t.With(name, a, routineSize - MAGIC_OFFSET, copy);
    }

    method AddRoutine(name: Name, a: Addr, routineSize: nat)
      requires Valid() && a !in t.addrToName && routineSize > MAGIC_OFFSET
      requires Fits(t.addrToSize[a := routineSize - MAGIC_OFFSET], |orig|)
      modifies this`t, mem.bytes, mem.perms
      ensures Valid() && t.addrToSize == old(t.addrToSize)[a := routineSize - MAGIC_OFFSET]
      ensures Abstract() == Step(predSets, false, old(Abstract()), Load(name, a))
    {
      ghost var sizes := t.addrToSize[a := routineSize - MAGIC_OFFSET];
      NewIsNew(t, orig, copiedFuncs, mem.reaches, a);
      var copy := SaveNew(a, routineSize, sizes);
      Record(name, a, routineSize - MAGIC_OFFSET, copy, sizes);
    }

    /** The body of a new routine is saved and blanked. */
    method SaveNew(a: Addr, routineSize: nat, ghost sizes: map<Addr, nat>) returns (copy: seq<Byte>)
      requires mem.Ok() && mem.AtRest() && mem.bytes[..] == Image(orig, t.addrToSize, copiedFuncs.Keys)
      requires a !in t.addrToSize && a !in copiedFuncs && routineSize > MAGIC_OFFSET
      requires sizes == t.addrToSize[a := routineSize - MAGIC_OFFSET] && Fits(sizes, |orig|)
      modifies mem.bytes, mem.perms
      ensures a + routineSize < |orig| && copy == orig[a + 14..a + 14 + (routineSize - MAGIC_OFFSET)]
      ensures mem.AtRest() && mem.bytes[..] == Image(orig, sizes, copiedFuncs.Keys)
    {
      ImageLoad(orig, t.addrToSize, copiedFuncs.Keys, a, routineSize - MAGIC_OFFSET);
      copy := mem.bytes[a + MAGIC_OFFSET..a + routineSize];
      BlankLoaded(a, routineSize);
    }

    /** The bookkeeping of image_load. */
    method Record(name: Name, a: Addr, size: nat, copy: seq<Byte>, ghost sizes: map<Addr, nat>)
      requires TablesOk(t, orig) && CopiedOk(copiedFuncs, t.addrToSize, mem.reaches) && a !in t.addrToSize && size > 0
      requires sizes == t.addrToSize[a := size] && Fits(sizes, |orig|)
      requires a + 14 + size < |orig| && copy == orig[a + 14..a + 14 + size]
      modifies this`t
      ensures TablesOk(t, orig) && CopiedOk(copiedFuncs, t.addrToSize, mem.reaches)
      ensures t.addrToSize == sizes && t.addrToName == old(t.addrToName)[a := name]
      ensures Addrs(t.nameToAddrAndSize) == Addrs(old(t.nameToAddrAndSize))[name := a]
    {
      TablesLoad(t, orig, name, a, size);
      CopiedLoad(copiedFuncs, t.addrToSize, mem.reaches, a, size);
      t := t.With(name, a, size, copy);
    }

    method BlankLoaded(a: Addr, routineSize: nat)
      requires mem.Ok() && mem.AtRest() && routineSize > MAGIC_OFFSET && a + routineSize < mem.bytes.Length
      modifies mem.bytes, mem.perms
      ensures mem.AtRest()
      ensures mem.bytes[..] == Splice(old(mem.bytes[..]), a + MAGIC_OFFSET, Zeros(routineSize - MAGIC_OFFSET))
    {
      var size := routineSize - MAGIC_OFFSET;
      mem.Remap(a, routineSize, RWX);
      DivMonotone(a, a + 14, mem.pageSize);
      DivMonotone(a + 13 + size, a + routineSize, mem.pageSize);
      var _ := mem.Store(a + MAGIC_OFFSET, Zeros(size));
      mem.Remap(a, routineSize, RX);
    }
  }
}
