/** Tagged pointers: a tag is packed into the high bits above the linear address and the low
    bits below the alignment (include/iel_priv/tp_tagh.tpl.h, src/tagptr.c, include/iel/config.h). */
module TagPtr {
  import opened Arith
  import opened Bits

  // -------------------------------------------------------------------------------------------
  // Arithmetic right shift

  // Two's complement reading of a 64-bit word.
  function Signed(u: nat): int
  {
    if u >= WORD / 2 then u - WORD else u
  }

  // A compiler's arithmetic shift of a signed value, converted back to unsigned.
  function AshrNative(si: int, n: nat): nat
  {
    si / Pow2(n) % WORD
  }

  function BitNotIfNeg(x: nat, maybeNeg: int): nat
  {
    Xor(x, (-(if maybeNeg < 0 then 1 else 0)) % WORD)
  }

  // The portable fallback: complement, logical shift, complement.
  function AshrPortable(si: int, n: nat): nat
  {
    BitNotIfNeg(Shr(BitNotIfNeg(si % WORD, si), n), si)
  }

  lemma BitNotIfNegIs(x: nat, maybeNeg: int)
    requires x < WORD
    ensures BitNotIfNeg(x, maybeNeg) == if maybeNeg < 0 then WORD - 1 - x else x
  {
    WordIsPow2();
    XorOnes(x, 64);
    assert Xor(x, 0) == x;
    assert (-1) % WORD == WORD - 1;
  }

  /** The fallback agrees with the arithmetic shift, floor division by 2^n, on every signed
      64-bit value. */
  lemma PortableShiftIsArithmetic(si: int, n: nat)
    requires -(WORD / 2) <= si < WORD / 2 && n < 64
    ensures AshrPortable(si, n) == AshrNative(si, n)
  {
    if si < 0 {
      NegativeShift(-si - 1, n);
    } else {
      QuotientAtMost(si, Pow2(n));
      ModSmall(si, WORD);
      ModSmall(si / Pow2(n), WORD);
      BitNotIfNegIs(si, si);
      BitNotIfNegIs(si / Pow2(n), si);
    }
  }

  // The negative value -y-1 is the complement of y.
  lemma NegativeShift(y: int, n: nat)
    requires 0 <= y < WORD / 2
    ensures AshrPortable(-y - 1, n) == WORD - 1 - y / Pow2(n) == AshrNative(-y - 1, n)
  {
    var d := Pow2(n);
    QuotientAtMost(y, d);
    DivModUnique(-1, WORD, WORD - 1 - y);
    assert (-y - 1) % WORD == WORD - 1 - y;
    BitNotIfNegIs(WORD - 1 - y, -y - 1);
    BitNotIfNegIs(y / d, -y - 1);
    FloorOfNegative(y, d);
    DivModUnique(-1, WORD, WORD - 1 - y / d);
  }

  // `IEL_ASHR_U((intptr_t)u, n, uintptr_t)` under either macro definition.
  function AshrU(u: nat, n: nat, portable: bool): nat
  {
    if portable then AshrPortable(Signed(u), n) else AshrNative(Signed(u), n)
  }

  // -------------------------------------------------------------------------------------------
  // The tagging templates

  datatype Untagged = Untagged(ptr: nat, tag: nat)

  /** One instantiation: h high tag bits, and whether the high bits of an untagged pointer
      repeat the highest address bit (`TP_DO_SX`). `Low` is the plain low-bit scheme. */
  datatype Scheme = High(h: nat, sx: bool) | Low
  {
    predicate Valid() { High? ==> 0 < h < 64 }

    function HighBits(): nat { if High? then h else 0 }
  }

  function Tag(s: Scheme, ptr: nat, al: nat, tag: nat): nat
    requires s.Valid()
  {
    match s
    case Low => Or(ptr, tag)
    case High(h, _) =>
      var la := 64 - h;
      var tagh := Shl(And(tag, Pow2(h) - 1), la);
      var tagl := Shr(tag, h);
      Or(And(ptr, Pow2(la) - 1), Or(tagl, tagh))
  }

  function Untag(s: Scheme, w: nat, al: nat, portable: bool): Untagged
    requires s.Valid() && w < WORD && 0 < al <= WORD
  {
    var base := And(w, Not(al - 1));
    match s
    case Low => Untagged(base, And(w, al - 1))
    case High(h, _) =>
      var la := 64 - h;
      var tag := Or(Shr(w, la), Shl(And(w, al - 1), h));
      Untagged(UntagAddress(s, base, portable), tag)
  }

  // The address bits of a word whose low tag is already cleared.
  function UntagAddress(s: Scheme, base: nat, portable: bool): nat
    requires s.Valid() && s.High?
  {
    if s.sx then AshrU(Shl(base, s.h), s.h, portable) else And(base, Pow2(64 - s.h) - 1)
  }

  // `iel_tp_max`: one more than the largest tag.
  function MaxTag(s: Scheme, al: nat): nat
  {
    Shl(al, s.HighBits())
  }

  predicate PowerOfTwo(al: nat)
  {
    al > 0 && And(al, al - 1) == 0
  }

  // The 64-bit address whose low 64-h bits are v: sign- or zero-extended.
  function Extend(s: Scheme, v: nat): int
    requires s.Valid() && s.High?
  {
    if s.sx && v >= Pow2(64 - s.h - 1) then v + WORD - Pow2(64 - s.h) else v
  }

  // The address is what its low 64-h bits extend to.
  predicate Canonical(s: Scheme, ptr: nat)
    requires s.Valid()
  {
    match s
    case Low => ptr < WORD
    case High(h, _) => ptr == Extend(s, ptr % Pow2(64 - h))
  }

  // What iel_tp_tag asks of its caller: a non-null object pointer aligned to al, a tag in range.
  predicate Taggable(s: Scheme, ptr: nat, al: nat, tag: nat)
    requires s.Valid()
  {
    && ptr != 0
    && PowerOfTwo(al)
    && And(ptr, al - 1) == 0
    && Canonical(s, ptr)
    && tag < MaxTag(s, al)
  }

  // -------------------------------------------------------------------------------------------
  // Exact inversion

  // A taggable address has a non-zero low part, so its alignment is below 2^(64-h).
  lemma AlignmentBelowAddress(s: Scheme, ptr: nat, al: nat, tag: nat) returns (a: nat)
    requires s.Valid() && s.High? && Taggable(s, ptr, al, tag)
    ensures al == Pow2(a) && a < 64 - s.h
    ensures ptr % al == 0
    ensures MaxTag(s, al) == Pow2(a + s.h)
  {
    a := PowerOfTwoIdiom(al);
    AndLow(ptr, a);
    var la := 64 - s.h;
    if a >= la {
      var e := Pow2Split(la, a);
      ModMod(ptr, e, Pow2(la));
      assert false;
    }
    Pow2Product(a, s.h);
    ModSmall(al * Pow2(s.h), WORD);
  }

  // A field of h bits placed at bit la fills a word of la + h bits without loss.
  lemma FieldFits(t: nat, h: nat, la: nat, r: nat)
    requires t < Pow2(h) && r < Pow2(la) && la + h <= 64
    ensures Shl(t, la) == t * Pow2(la)
    ensures t * Pow2(la) + r < WORD
    ensures (t * Pow2(la) + r) / Pow2(la) == t && (t * Pow2(la) + r) % Pow2(la) == r
  {
    Pow2Product(h, la);
    FitsBelow(t, Pow2(h), Pow2(la), r, WORD);
  }

  lemma FitsBelow(t: nat, p: nat, l: nat, r: nat, w: nat)
    requires t < p && r < l && p * l <= w
    ensures 0 <= t * l <= t * l + r < w && t * l % w == t * l
    ensures (t * l + r) / l == t && (t * l + r) % l == r
  {
    DivModUnique(t, l, r);
    MulLe(0, t, l);
    MulLe(t + 1, p, l);
    Distribute(t, 1, l);
    ModSmall(t * l, w);
  }

  // The two halves of a tag, and the low part of an aligned address, lie below their fields.
  lemma FieldBounds(ptr: nat, tag: nat, h: nat, a: nat)
    requires 0 < h < 64 && a < 64 - h
    requires ptr % Pow2(a) == 0 && tag < Pow2(a + h)
    ensures var v := ptr % Pow2(64 - h);
            v % Pow2(a) == 0 && v + Pow2(a) <= Pow2(64 - h)
    ensures tag % Pow2(h) < Pow2(h) && 0 <= tag / Pow2(h) < Pow2(a)
  {
    var e := Pow2Split(a, 64 - h);
    ModMod(ptr, e, Pow2(a));
    MultipleRoom(ptr % Pow2(64 - h), e, Pow2(a));
    Pow2Add(a, h);
    QuotientBelow(tag, Pow2(h), Pow2(a));
  }

  // The tagged word is the sum of its three fields.
  lemma TagLayout(s: Scheme, ptr: nat, al: nat, tag: nat, a: nat)
    requires s.Valid() && s.High? && al == Pow2(a) && a < 64 - s.h
    requires ptr % al == 0 && tag < Pow2(a + s.h)
    ensures var la := 64 - s.h;
            Tag(s, ptr, al, tag) == tag % Pow2(s.h) * Pow2(la) + (ptr % Pow2(la) + tag / Pow2(s.h))
  {
    var h, la := s.h, 64 - s.h;
    var v, t1, t2 := ptr % Pow2(la), tag % Pow2(h), tag / Pow2(h);
    FieldBounds(ptr, tag, h, a);
    AndLow(ptr, la);
    AndLow(tag, h);
    var hi := t1 * Pow2(la);
    FieldFits(t1, h, la, 0);
    OrFields(v, t2, hi, la, a);
  }

  lemma OrFields(v: nat, t2: nat, hi: nat, la: nat, a: nat)
    requires v % Pow2(a) == 0 && t2 < Pow2(a) && v + t2 < Pow2(la) && hi % Pow2(la) == 0
    ensures Or(v, Or(t2, hi)) == hi + (v + t2)
  {
    OrAssoc(v, t2, hi);
    OrDisjoint(v, t2, a);
    OrComm(v + t2, hi);
    OrDisjoint(hi, v + t2, la);
  }

  // Reading the tag back: the high field and the low field recombine.
  lemma TagFields(v: nat, t1: nat, t2: nat, h: nat, a: nat)
    requires 0 < h < 64 && a < 64 - h
    requires v % Pow2(a) == 0 && v + Pow2(a) <= Pow2(64 - h)
    requires t1 < Pow2(h) && t2 < Pow2(a)
    ensures var w := t1 * Pow2(64 - h) + (v + t2);
            Or(Shr(w, 64 - h), Shl(And(w, Pow2(a) - 1), h)) == t2 * Pow2(h) + t1
    ensures And(t1 * Pow2(64 - h) + (v + t2), Pow2(a) - 1) == t2
  {
    var la := 64 - h;
    var w := t1 * Pow2(la) + (v + t2);
    FieldFits(t1, h, la, v + t2);
    LowField(v, t1, t2, la, a);
    AndLow(w, a);
    FieldFits(t2, a, h, 0);
    OrComm(t1, t2 * Pow2(h));
    OrDisjoint(t2 * Pow2(h), t1, h);
  }

  lemma LowField(v: nat, t1: nat, t2: nat, la: nat, a: nat)
    requires a <= la && v % Pow2(a) == 0 && t2 < Pow2(a)
    ensures (t1 * Pow2(la) + (v + t2)) % Pow2(a) == t2
  {
    var p := Pow2(a);
    var e := Pow2Split(a, la);
    MulAssoc(t1, e, p);
    DivMod(v, p);
    Distribute(t1 * e, v / p, p);
    DivModUnique(t1 * e + v / p, p, t2);
  }

  // Sign extension rebuilds a canonical address from its low 64-h bits.
  lemma SignExtend(v: nat, hi: nat, h: nat, portable: bool)
    requires 0 < h < 64 && v < Pow2(64 - h)
    ensures AshrU(Shl(hi * Pow2(64 - h) + v, h), h, portable)
         == if v >= Pow2(64 - h - 1) then v + WORD - Pow2(64 - h) else v
  {
    var la, d, l := 64 - h, Pow2(h), Pow2(64 - h);
    Pow2Product(la, h);
    var u := v * d;
    TopShift(hi, v, l, d);
    PortableShiftIsArithmetic(Signed(u), h);
    HalfTop(v, Pow2(la - 1), d);
    Distribute(v, l, d);
    MultipleMod(v - l, d);
    MultipleMod(v, d);
    MulLe(1, d, l);
    if v >= Pow2(la - 1) {
      assert Signed(u) == (v - l) * d;
      DivModUnique(-1, WORD, v - l + WORD);
    } else {
      ModSmall(v, WORD);
    }
  }

  // Shifting left by h drops the field above bit 64-h.
  lemma TopShift(hi: nat, v: nat, l: nat, d: nat)
    requires v < l && l * d == WORD
    ensures (hi * l + v) * d % WORD == v * d < WORD
  {
    Distribute(hi * l, v, d);
    MulAssoc(hi, l, d);
    MulLe(v + 1, l, d);
    Distribute(v, 1, d);
    DivModUnique(hi, WORD, v * d);
  }

  lemma HalfTop(v: nat, half: nat, d: nat)
    requires d > 0 && 2 * half * d == WORD
    ensures v * d >= WORD / 2 <==> v >= half
  {
    MulAssoc(2, half, d);
    if v >= half {
      MulLe(half, v, d);
    } else {
      MulLe(v + 1, half, d);
      Distribute(v, 1, d);
    }
  }

  /** For every tag width, power-of-two alignment, non-null aligned canonical address and tag
      below iel_tp_max: the tagged word is a non-zero 64-bit word and untagging returns exactly
      the address and the tag, whichever definition of the arithmetic shift is compiled in. */
  lemma RoundTrip(s: Scheme, ptr: nat, al: nat, tag: nat, portable: bool)
    requires s.Valid() && Taggable(s, ptr, al, tag)
    ensures 0 < Tag(s, ptr, al, tag) < WORD && al <= WORD
    ensures Untag(s, Tag(s, ptr, al, tag), al, portable) == Untagged(ptr, tag)
  {
    match s
    case Low => RoundTripLow(ptr, al, tag, portable);
    case High(_, _) =>
      var a := AlignmentBelowAddress(s, ptr, al, tag);
      WordIsSum(s, ptr, al, tag, a);
      UntaggedTag(s, ptr, al, tag, a, portable);
      UntaggedPtr(s, ptr, al, tag, a, portable);
  }

  // The two parts of a tagged word: the address bits plus the high field, and the low field.
  lemma WordIsSum(s: Scheme, ptr: nat, al: nat, tag: nat, a: nat)
    requires s.Valid() && s.High? && Taggable(s, ptr, al, tag) && al == Pow2(a) && a < 64 - s.h
    requires ptr % al == 0 && tag < Pow2(a + s.h)
    ensures var w, v, t1 := Tag(s, ptr, al, tag), ptr % Pow2(64 - s.h), tag % Pow2(s.h);
            0 < w < WORD && w == t1 * Pow2(64 - s.h) + v + tag / Pow2(s.h) && t1 * Pow2(64 - s.h) >= 0
    ensures al <= WORD
  {
    var h, la := s.h, 64 - s.h;
    var v, t1 := ptr % Pow2(la), tag % Pow2(h);
    TagLayout(s, ptr, al, tag, a);
    FieldBounds(ptr, tag, h, a);
    FieldFits(t1, h, la, v + tag / Pow2(h));
    MulLe(0, t1, Pow2(la));
    Pow2Below(a);
    assert v != 0;
  }

  lemma UntaggedTag(s: Scheme, ptr: nat, al: nat, tag: nat, a: nat, portable: bool)
    requires s.Valid() && s.High? && al == Pow2(a) && a < 64 - s.h
    requires ptr % al == 0 && tag < Pow2(a + s.h)
    requires Tag(s, ptr, al, tag) < WORD && al <= WORD
    ensures Untag(s, Tag(s, ptr, al, tag), al, portable).tag == tag
  {
    var h := s.h;
    TagLayout(s, ptr, al, tag, a);
    FieldBounds(ptr, tag, h, a);
    TagFields(ptr % Pow2(64 - h), tag % Pow2(h), tag / Pow2(h), h, a);
    DivMod(tag, Pow2(h));
  }

  lemma UntaggedPtr(s: Scheme, ptr: nat, al: nat, tag: nat, a: nat, portable: bool)
    requires s.Valid() && s.High? && Taggable(s, ptr, al, tag) && al == Pow2(a) && a < 64 - s.h
    requires ptr % al == 0 && tag < Pow2(a + s.h)
    requires Tag(s, ptr, al, tag) < WORD && al <= WORD
    ensures Untag(s, Tag(s, ptr, al, tag), al, portable).ptr == ptr
  {
    ClearLowField(s, ptr, al, tag, a);
    FieldBounds(ptr, tag, s.h, a);
    AddressOfFields(s, ptr % Pow2(64 - s.h), tag % Pow2(s.h), portable);
  }

  lemma ClearLowField(s: Scheme, ptr: nat, al: nat, tag: nat, a: nat)
    requires s.Valid() && s.High? && al == Pow2(a) && a < 64 - s.h
    requires ptr % al == 0 && tag < Pow2(a + s.h)
    requires Tag(s, ptr, al, tag) < WORD && al <= WORD
    ensures And(Tag(s, ptr, al, tag), Not(al - 1)) == tag % Pow2(s.h) * Pow2(64 - s.h) + ptr % Pow2(64 - s.h)
  {
    var w := Tag(s, ptr, al, tag);
    TagLayout(s, ptr, al, tag, a);
    FieldBounds(ptr, tag, s.h, a);
    LowField(ptr % Pow2(64 - s.h), tag % Pow2(s.h), tag / Pow2(s.h), 64 - s.h, a);
    AndHigh(w, a);
  }

  // With the low field cleared, what is left untags to the extension of the address bits.
  lemma AddressOfFields(s: Scheme, v: nat, t1: nat, portable: bool)
    requires s.Valid() && s.High? && v < Pow2(64 - s.h) && t1 < Pow2(s.h)
    ensures UntagAddress(s, t1 * Pow2(64 - s.h) + v, portable) == Extend(s, v)
  {
    FieldFits(t1, s.h, 64 - s.h, v);
    if s.sx {
      SignExtend(v, t1, s.h, portable);
    } else {
      AndLow(t1 * Pow2(64 - s.h) + v, 64 - s.h);
    }
  }

  lemma RoundTripLow(ptr: nat, al: nat, tag: nat, portable: bool)
    requires Taggable(Low, ptr, al, tag)
    ensures 0 < Tag(Low, ptr, al, tag) < WORD && al <= WORD
    ensures Untag(Low, Tag(Low, ptr, al, tag), al, portable) == Untagged(ptr, tag)
  {
    var a := PowerOfTwoIdiom(al);
    AndLow(ptr, a);
    LowAlignment(ptr, al, a);
    OrDisjoint(ptr, tag, a);
    var w := ptr + tag;
    AndLow(w, a);
    AndHigh(w, a);
    DivMod(ptr, al);
    DivModUnique(ptr / al, al, tag);
  }

  lemma LowAlignment(ptr: nat, al: nat, a: nat)
    requires al == Pow2(a) && 0 < ptr < WORD && ptr % al == 0
    ensures a < 64 && al < WORD && ptr + al <= WORD && MaxTag(Low, al) == al
  {
    Pow2Below(a);
    DivMod(ptr, al);
    if ptr < al {
      ModSmall(ptr, al);
    }
    WordIsPow2();
    var e := Pow2Split(a, 64);
    MultipleRoom(ptr, e, al);
    ModSmall(al, WORD);
    assert al * Pow2(0) == al;
  }

  /** Two different (address, tag) pairs never share a tagged word. */
  lemma TagInjective(s: Scheme, al: nat, p: nat, t: nat, p': nat, t': nat)
    requires s.Valid() && Taggable(s, p, al, t) && Taggable(s, p', al, t')
    ensures Tag(s, p, al, t) == Tag(s, p', al, t') ==> p == p' && t == t'
  {
    RoundTrip(s, p, al, t, false);
    RoundTrip(s, p', al, t', false);
  }

  /** iel_tp_max is documented as never 0. For a power-of-two alignment that fits size_t this
      holds exactly when the alignment leaves room for the high tag bits. */
  lemma MaxTagPositive(s: Scheme, al: nat)
    requires s.Valid() && PowerOfTwo(al) && al < WORD
    ensures MaxTag(s, al) > 0 <==> al < Pow2(64 - s.HighBits())
    ensures MaxTag(s, al) > 0 ==> MaxTag(s, al) == al * Pow2(s.HighBits())
  {
    var h := s.HighBits();
    var a := PowerOfTwoIdiom(al);
    Pow2Below(a);
    if a >= 64 - h {
      Pow2Mono(64 - h, a);
      Pow2Add(a, h);
      WordIsPow2();
      var e := Pow2Split(64, a + h);
      MultipleMod(e, WORD);
    } else {
      Pow2Mono(a + 1, 64 - h);
      Pow2Product(a, h);
      ModSmall(al * Pow2(h), WORD);
    }
  }

  // -------------------------------------------------------------------------------------------
  // Choosing the scheme

  // User addresses have a clear top bit (`IEL_PF_MMLOWUSER`): one more tag bit, no sign extension.
  const LA48 := High(17, false)
  const LA57 := High(8, false)

  const CPUID_ADDRESS_SIZES: nat := 0x8000_0008

  // The scheme for a processor: by the linear address width it reports, if it reports one.
  function SchemeFor(maxLeaf: nat, laBits: nat): (s: Scheme)
    ensures s.Valid()
  {
    if maxLeaf < CPUID_ADDRESS_SIZES then Low
    else if laBits == 48 then LA48
    else if laBits == 57 then LA57
    else Low
  }

  lemma Pow2IsPowerOfTwo(a: nat)
    ensures PowerOfTwo(Pow2(a))
  {
    AndLow(Pow2(a), a);
    MultipleMod(1, Pow2(a));
  }

  // Every alignment from 2^(64-h) on gives the limit 0: with 17 high tag bits, those from 2^47 on.
  lemma NoRoomForTags(s: Scheme, a: nat)
    requires s.Valid() && 64 - s.HighBits() <= a && Pow2(a) < WORD
    ensures PowerOfTwo(Pow2(a)) && MaxTag(s, Pow2(a)) == 0
  {
    hide MaxTag, PowerOfTwo, Pow2;
    Pow2IsPowerOfTwo(a);
    Pow2Mono(64 - s.HighBits(), a);
    MaxTagPositive(s, Pow2(a));
  }

  // The scheme keeps every user address of a processor with 48 or 57 address bits; without the
  // leaf, or with another width, only the alignment is used.
  ghost predicate FitsProcessor(s: Scheme, maxLeaf: nat, laBits: nat)
    requires s.Valid()
  {
    if maxLeaf >= 0x8000_0008 && (laBits == 48 || laBits == 57) then
      s.High? && !s.sx && forall addr: nat :: addr < Pow2(laBits - 1) ==> Canonical(s, addr)
    else
      forall al: nat :: al < WORD ==> MaxTag(s, al) == al
  }

  lemma AddressFits(h: nat, addr: nat)
    requires 0 < h < 64 && addr < Pow2(64 - h)
    ensures Canonical(High(h, false), addr)
  {
    ModSmall(addr, Pow2(64 - h));
  }

  /** The scheme chosen fits the processor. */
  lemma ChosenFits(maxLeaf: nat, laBits: nat)
    ensures FitsProcessor(SchemeFor(maxLeaf, laBits), maxLeaf, laBits)
  {
    hide Canonical, MaxTag, Pow2;
    var s := SchemeFor(maxLeaf, laBits);
    if maxLeaf >= CPUID_ADDRESS_SIZES && (laBits == 48 || laBits == 57) {
      forall addr: nat | addr < Pow2(laBits - 1) ensures Canonical(s, addr) {
        AddressFits(s.h, addr);
      }
    } else {
      forall al: nat | al < WORD ensures MaxTag(s, al) == al {
        LowLimit(al);
      }
    }
  }

  lemma LowLimit(al: nat)
    requires al < WORD
    ensures MaxTag(Low, al) == al
  {
    ModSmall(al, WORD);
    assert al * Pow2(0) == al;
  }

  /** And no scheme with more high tag bits would: some user address would lose bits. */
  lemma ChosenIsWidest(maxLeaf: nat, laBits: nat, h: nat)
    requires maxLeaf >= 0x8000_0008 && (laBits == 48 || laBits == 57)
    requires SchemeFor(maxLeaf, laBits).HighBits() < h < 64
    ensures !FitsProcessor(High(h, false), maxLeaf, laBits)
  {
    hide Canonical, Pow2;
    var la := 64 - h;
    Pow2Mono(la + 1, laBits - 1);
    Doubles(la);
    LosesBits(h);
    assert Pow2(la) < Pow2(laBits - 1);
  }

  lemma Doubles(a: nat)
    ensures Pow2(a + 1) == 2 * Pow2(a) > Pow2(a)
  {
  }

  lemma LosesBits(h: nat)
    requires 0 < h < 64
    ensures !Canonical(High(h, false), Pow2(64 - h))
  {
    MultipleMod(1, Pow2(64 - h));
  }

  /** The process-wide choice made by iel_tp_init. */
  class Dispatch {
    var tpV: Scheme
    var utpV: Scheme
    var maxtagShl: nat

    // Tagging, untagging and the tag limit agree.
    ghost predicate Ready()
      reads this
    {
      tpV.Valid() && utpV == tpV && maxtagShl == tpV.HighBits()
    }

    // Static storage: maxtag_shl starts at 0, the function pointers are not set.
    constructor ()
      ensures maxtagShl == 0
    {
      tpV, utpV, maxtagShl := Low, Low, 0;
    }

    /** iel_tp_init. The low-bits branch leaves the shift as it was, so the three agree afterwards
        exactly when another scheme was chosen or no earlier call had chosen one. */
    method Init(maxLeaf: nat, laBits: nat)
      modifies this
      ensures tpV == utpV == SchemeFor(maxLeaf, laBits) && FitsProcessor(tpV, maxLeaf, laBits)
      ensures Ready() <==> SchemeFor(maxLeaf, laBits) != Low || old(maxtagShl) == 0
      ensures maxtagShl == if SchemeFor(maxLeaf, laBits) == Low then old(maxtagShl) else tpV.HighBits()
    {
      var s := SchemeFor(maxLeaf, laBits);
      ChosenFits(maxLeaf, laBits);
      tpV, utpV := s, s;
      if s.High? {
        maxtagShl := s.h;
      }
    }

    /** However often a process calls iel_tp_init, CPUID answering alike each time: tagging,
        untagging and the limit agree, for the scheme of that processor. */
    static method InitRepeatedly(maxLeaf: nat, laBits: nat, times: nat) returns (d: Dispatch)
      requires times > 0
      ensures fresh(d) && d.Ready() && d.tpV == SchemeFor(maxLeaf, laBits) && FitsProcessor(d.tpV, maxLeaf, laBits)
    {
      ChosenFits(maxLeaf, laBits);
      d := new Dispatch();
      for i := 0 to times
        invariant fresh(d) && d.maxtagShl == (if i == 0 then 0 else SchemeFor(maxLeaf, laBits).HighBits())
        invariant i > 0 ==> d.tpV == d.utpV == SchemeFor(maxLeaf, laBits)
      {
        d.Init(maxLeaf, laBits);
      }
    }

    /** iel_tp_max: the limit of the scheme in force, positive for a power of two exactly when it
        leaves room for the high tag. */
    method Max(al: nat) returns (m: nat)
      requires Ready()
      ensures m == MaxTag(tpV, al)
      ensures PowerOfTwo(al) && al < WORD ==> (m > 0 <==> al < Pow2(64 - tpV.HighBits()))
    {
      m := Shl(al, maxtagShl);
      if PowerOfTwo(al) && al < WORD {
        MaxTagPositive(tpV, al);
      }
    }

    /** iel_tp_tag: the word is not null and untags to what went in. */
    method TagPointer(ptr: nat, al: nat, tag: nat) returns (w: nat)
      requires Ready() && Taggable(tpV, ptr, al, tag)
      ensures 0 < w < WORD && al <= WORD
      ensures forall portable :: Untag(utpV, w, al, portable) == Untagged(ptr, tag)
    {
      w := Tag(tpV, ptr, al, tag);
      RoundTrip(tpV, ptr, al, tag, true);
      RoundTrip(tpV, ptr, al, tag, false);
    }

    /** iel_tp_untag of a word iel_tp_tag gave: the pointer is not null, the tag below the limit. */
    method UntagPointer(w: nat, al: nat, ghost ptr: nat, ghost tag: nat) returns (u: Untagged)
      requires Ready() && Taggable(tpV, ptr, al, tag) && w == Tag(tpV, ptr, al, tag)
      ensures u == Untagged(ptr, tag) && u.ptr != 0 && u.tag < MaxTag(tpV, al)
    {
      RoundTrip(tpV, ptr, al, tag, false);
      u := Untag(utpV, w, al, false);
    }
  }
}
