/** lib/ustar.c: headers of ustar archives ("ustar Interchange Format" of the pax utility in
    POSIX.1-2001), with the octal formatting of lib/stdio.c that they use. */
module Ustar {

  import opened Lists
  import opened Blocks
  import D = Directory

  const HEADER_SIZE := 512
  const ULONG_MAX := 0xffff_ffff
  const INT_MAX := 0x7fff_ffff

  // Offsets of the fields of struct ustar_header.
  const NAME := 0
  const MODE := 100
  const UID := 108
  const GID := 116
  const SIZE := 124
  const MTIME := 136
  const CHKSUM := 148
  const TYPEFLAG := 156
  const MAGIC := 257
  const VERSION := 263
  const UNAME := 265
  const GNAME := 297
  const PREFIX := 345

  datatype Type = Regular | Directory

  /** The complaints of ustar_parse_header(). */
  datatype Error =
    NotUstar | BadVersion | CorruptChksum | ChksumMismatch | NameTooLong | BadType | CorruptSize | TooLarge

  datatype Parsed = Eof | Bad(error: Error) | Entry(name: seq<Byte>, kind: Type, size: nat)

  function TypeByte(kind: Type): Byte {
    if kind.Regular? then 48 else 53
  }

  // ----- Octal fields -----

  function Pow8(w: nat): (r: nat)
    ensures r > 0
  {
    if w == 0 then 1 else 8 * Pow8(w - 1)
  }

  /** The digits of v, most significant first, in a field of w digits. */
  function OctalDigits(v: nat, w: nat): (r: seq<Byte>)
    ensures |r| == w
  {
    if w == 0 then [] else OctalDigits(v / 8, w - 1) + [48 + v % 8]
  }

  lemma {:induction false} DigitAt(v: nat, w: nat, k: nat)
    requires k < w
    ensures OctalDigits(v, w)[k] == 48 + v / Pow8(w - 1 - k) % 8
  {
    if k < w - 1 {
      DigitAt(v / 8, w - 1, k);
      A.DivDiv(v, 8, Pow8(w - 2 - k));
    }
  }

  /** parse_octal_field() from position ofs on, with the value so far. */
  function ParseOctal(s: seq<Byte>, ofs: nat, value: nat): (r: Option<nat>)
    requires ofs <= |s|
    decreases |s| - ofs
  {
    if ofs == |s| then None
    else
      var c := s[ofs];
      if 48 <= c <= 55 then
        if value > ULONG_MAX / 8 then None else ParseOctal(s, ofs + 1, c - 48 + value * 8)
      else if c == 32 || c == 0 then
        if ofs > 0 then Some(value) else None
      else None
  }

  lemma {:induction false} ParseFrom(v: nat, w: nat, rest: seq<Byte>, k: nat)
    requires v <= ULONG_MAX && k <= w && 0 < w
    ensures ParseOctal(OctalDigits(v, w) + [0] + rest, k, v / Pow8(w - k)) == Some(v)
    decreases w - k
  {
    var s := OctalDigits(v, w) + [0] + rest;
    if k == w {
      assert s[k] == 0;
    } else {
      DigitAt(v, w, k);
      var x := v / Pow8(w - k - 1);
      assert s[k] == 48 + x % 8;
      A.DivDiv(v, Pow8(w - k - 1), 8);
      assert Pow8(w - k) == Pow8(w - k - 1) * 8;
      assert v / Pow8(w - k) == x / 8;
      A.DivBounds(v, Pow8(w - k - 1));
      assert x <= v by {
        A.MulMono(1, Pow8(w - k - 1), x);
      }
      ParseFrom(v, w, rest, k + 1);
    }
  }

  lemma {:induction false} BelowPower(v: nat, w: nat)
    requires v < Pow8(w)
    ensures v / Pow8(w) == 0
  {
    A.DivUnique(v, Pow8(w), 0);
  }

  /** Printing an octal field and parsing it are inverse. */
  lemma OctalRoundTrip(v: nat, w: nat, rest: seq<Byte>)
    requires v <= ULONG_MAX && v < Pow8(w) && 0 < w
    ensures ParseOctal(OctalDigits(v, w) + [0] + rest, 0, 0) == Some(v)
  {
    BelowPower(v, w);
    ParseFrom(v, w, rest, 0);
  }

  /** The number that octal digits stand for. */
  function OctalValue(s: seq<Byte>): (v: int) {
    if s == [] then 0 else 8 * OctalValue(s[..|s| - 1]) + (s[|s| - 1] as int) - 48
  }

  predicate Digits(s: seq<Byte>) {
    forall i :: 0 <= i < |s| ==> 48 <= s[i] <= 55
  }

  /** An octal field: at least one digit, a space or a NUL behind the digits, and a value that fits
      in 32 bits. */
  ghost predicate IsOctal(s: seq<Byte>, n: nat, v: int) {
    0 < n < |s| && Digits(s[..n]) && (s[n] == 32 || s[n] == 0) && OctalValue(s[..n]) == v <= 4294967295
  }

  lemma {:induction false} ValueGrows(s: seq<Byte>, n: nat)
    requires n <= |s| && Digits(s)
    ensures 0 <= OctalValue(s[..n]) <= OctalValue(s)
    decreases |s|
  {
    assert s[..|s|] == s;
    if n < |s| {
      var front := s[..|s| - 1];
      assert front[..n] == s[..n];
      ValueGrows(front, n);
    } else if s != [] {
      ValueGrows(s[..|s| - 1], |s| - 1);
      assert s[..|s| - 1][..|s| - 1] == s[..|s| - 1];
    }
  }

  lemma NextDigit(s: seq<Byte>, k: nat)
    requires k < |s|
    ensures OctalValue(s[..k + 1]) == 8 * OctalValue(s[..k]) + (s[k] as int) - 48
  {
    assert s[..k + 1][..k] == s[..k];
  }

  /** The parser after the first k digits. */
  lemma {:induction false} ParsesFrom(s: seq<Byte>, k: nat, v: nat)
    requires k <= |s| && Digits(s[..k]) && 0 <= OctalValue(s[..k]) <= ULONG_MAX
    ensures ParseOctal(s, k, OctalValue(s[..k])) == Some(v) <==> exists n: nat :: k <= n && IsOctal(s, n, v)
    decreases |s| - k
  {
    if k < |s| {
      if 48 <= s[k] <= 55 {
        NextDigit(s, k);
        assert forall i :: 0 <= i < k ==> s[i] == s[..k][i];
        assert Digits(s[..k + 1]);
        if OctalValue(s[..k]) > ULONG_MAX / 8 {
          forall n: nat | k <= n ensures !IsOctal(s, n, v) {
            if k < n < |s| && Digits(s[..n]) {
              ValueGrows(s[..n], k + 1);
              assert s[..n][..k + 1] == s[..k + 1];
            }
          }
        } else {
          ParsesFrom(s, k + 1, v);
        }
      } else {
        forall n: nat | k < n ensures !IsOctal(s, n, v) {
          if n < |s| {
            assert s[..n][k] == s[k];
          }
        }
        if s[k] == 32 || s[k] == 0 {
          assert k > 0 && OctalValue(s[..k]) == v ==> IsOctal(s, k, v);
        }
      }
    }
  }

  /** parse_octal_field() accepts exactly the octal fields, with their values. */
  lemma ParseOctalIff(s: seq<Byte>, v: nat)
    ensures ParseOctal(s, 0, 0) == Some(v) <==> exists n: nat :: IsOctal(s, n, v)
  {
    assert OctalValue(s[..0]) == 0;
    ParsesFrom(s, 0, v);
  }

  // ----- Names -----

  function StripPrefixes(name: D.Name): (r: D.Name)
    ensures |r| <= |name|
  {
    if |name| >= 1 && name[0] == 47 then StripPrefixes(name[1..])
    else if |name| >= 2 && name[..2] == [46, 47] then StripPrefixes(name[2..])
    else if |name| >= 3 && name[..3] == [46, 46, 47] then StripPrefixes(name[3..])
    else name
  }

  /** strip_antisocial_prefixes(). */
  function Strip(name: D.Name): (r: D.Name)
    ensures |r| <= |name| || r == [46]
  {
    var r := StripPrefixes(name);
    if r == [] || r == [46, 46] then [46] else r
  }

  /** A name from which nothing more is stripped: not absolute, and neither "." nor ".." comes
      first with something behind it. */
  predicate Harmless(name: D.Name) {
    && name != [] && name != [46, 46] && name[0] != 47
    && !(|name| >= 2 && name[..2] == [46, 47]) && !(|name| >= 3 && name[..3] == [46, 46, 47])
  }

  lemma {:induction false} StrippedHasNoPrefix(name: D.Name)
    ensures var r := StripPrefixes(name);
            r == [] || r == [46, 46] || Harmless(r)
    decreases |name|
  {
    if |name| >= 1 && name[0] == 47 {
      StrippedHasNoPrefix(name[1..]);
    } else if |name| >= 2 && name[..2] == [46, 47] {
      StrippedHasNoPrefix(name[2..]);
    } else if |name| >= 3 && name[..3] == [46, 46, 47] {
      StrippedHasNoPrefix(name[3..]);
    }
  }

  /** Stripping yields a harmless name, and stripping twice does no more. */
  lemma StripIdempotent(name: D.Name)
    ensures Harmless(Strip(name)) && Strip(Strip(name)) == Strip(name)
  {
    StrippedHasNoPrefix(name);
  }

  /** Stripping drops the three harmful prefixes, one after the other, and nothing else: a harmless
      name stays as it is, and what is left empty or ".." becomes ".". */
  lemma StripDrops(prefix: D.Name, name: D.Name)
    requires prefix == [47] || prefix == [46, 47] || prefix == [46, 46, 47]
    ensures Strip(prefix + name) == Strip(name)
  {
    var full := prefix + name;
    assert full[|prefix|..] == name && full[..|prefix|] == prefix;
    assert full[0] == prefix[0];
    if |prefix| == 3 {
      assert full[..2] == prefix[..2] && full[..2][1] == 46;
    }
  }

  lemma StripKeeps(name: D.Name)
    ensures Harmless(name) ==> Strip(name) == name
    ensures name == [] || name == [46, 46] ==> Strip(name) == [46]
  {
  }

  // ----- The checksum -----

  /** calculate_chksum() over the first n bytes. */
  function Sum(h: seq<Byte>, n: nat): (r: nat)
    requires n <= |h|
    ensures r <= 255 * n
  {
    if n == 0 then 0
    else Sum(h, n - 1) + if CHKSUM <= n - 1 < TYPEFLAG then 32 else h[n - 1]
  }

  lemma {:induction false} SumIgnoresField(h: seq<Byte>, h': seq<Byte>, n: nat)
    requires n <= |h| == |h'| && forall i :: 0 <= i < n && !(CHKSUM <= i < TYPEFLAG) ==> h'[i] == h[i]
    ensures Sum(h', n) == Sum(h, n)
  {
    if n > 0 {
      SumIgnoresField(h, h', n - 1);
    }
  }

  lemma {:induction false} SumSeesByte(h: seq<Byte>, i: nat, b: Byte, n: nat)
    requires n <= |h| && i < |h| && !(CHKSUM <= i < TYPEFLAG)
    ensures Sum(h[i := b], n) == Sum(h, n) + if i < n then (b as int) - (h[i] as int) else 0
  {
    if n > 0 {
      SumSeesByte(h, i, b, n - 1);
    }
  }

  function ByteSum(s: seq<Byte>): (r: nat) {
    if s == [] then 0 else ByteSum(s[..|s| - 1]) + s[|s| - 1]
  }

  lemma {:induction false} SumOfBytes(h: seq<Byte>, n: nat)
    requires n <= |h|
    ensures n <= CHKSUM ==> Sum(h, n) == ByteSum(h[..n])
    ensures CHKSUM <= n <= TYPEFLAG <= |h| ==> Sum(h, n) == ByteSum(h[..CHKSUM]) + 32 * (n - CHKSUM)
    ensures TYPEFLAG <= n ==> Sum(h, n) == ByteSum(h[..CHKSUM]) + 256 + ByteSum(h[TYPEFLAG..n])
  {
    if n > 0 {
      SumOfBytes(h, n - 1);
      assert h[..n][..n - 1] == h[..n - 1];
      if n > TYPEFLAG {
        assert h[TYPEFLAG..n][..n - TYPEFLAG - 1] == h[TYPEFLAG..n - 1];
      }
    }
  }

  /** The checksum is the sum of all bytes, with eight spaces in place of its own field. */
  lemma ChecksumIs(h: seq<Byte>)
    requires |h| == HEADER_SIZE
    ensures Sum(h, 512) == ByteSum(h[..148]) + 8 * 32 + ByteSum(h[156..])
  {
    SumOfBytes(h, 512);
    assert h[156..512] == h[156..];
  }

  // ----- Headers -----

  function Field(h: seq<Byte>, ofs: nat, size: nat): (r: seq<Byte>)
    requires ofs + size <= |h|
    ensures |r| == size
  {
    h[ofs..ofs + size]
  }

  const USTAR: seq<Byte> := [117, 115, 116, 97, 114]
  const ROOT: seq<Byte> := [114, 111, 111, 116]
  const SEVEN_ZEROS: seq<Byte> := [48, 48, 48, 48, 48, 48, 48]

  /** strlcpy() or snprintf() of a string that fits, into a field at ofs. */
  function Put(h: seq<Byte>, ofs: nat, str: seq<Byte>): (r: seq<Byte>)
    requires ofs + |str| + 1 <= |h|
    ensures |r| == |h|
  {
    Splice(h, ofs, str + [0])
  }

  /** An int as the unsigned conversion of printf() reads it. */
  function Unsigned(size: int): (v: nat)
    ensures v < WORD_LIMIT && (0 <= size < WORD_LIMIT ==> v == size)
  {
    size % WORD_LIMIT
  }

  /** The header without its checksum. */
  function Unsummed(name: D.Name, kind: Type, size: int): (h: seq<Byte>)
    requires |name| <= 99
    ensures |h| == HEADER_SIZE
  {
    var h := Put(Zeros(HEADER_SIZE), NAME, name);
    var h := Put(h, MODE, OctalDigits(if kind.Regular? then 420 else 493, 7));
    var h := Put(h, UID, SEVEN_ZEROS);
    var h := Put(h, GID, SEVEN_ZEROS);
    var h := Put(h, SIZE, OctalDigits(Unsigned(size), 11));
    var h := Put(h, MTIME, OctalDigits(1136102400, 11));
    var h := h[TYPEFLAG := TypeByte(kind)];
    var h := Put(h, MAGIC, USTAR);
    var h := h[VERSION := 48][VERSION + 1 := 48];
    var h := Put(h, GNAME, ROOT);
    Put(h, UNAME, ROOT)
  }

  /** ustar_make_header(). */
  function MakeHeader(fileName: D.Name, kind: Type, size: int): (r: Option<seq<Byte>>)
    ensures r.Some? ==> |r.value| == HEADER_SIZE
    ensures r.Some? <==> |Strip(fileName)| <= 99
  {
    var name := Strip(fileName);
    if |name| > 99 then None
    else
      var h := Unsummed(name, kind, size);
      Some(Put(h, CHKSUM, OctalDigits(Sum(h, HEADER_SIZE), 7)))
  }

  predicate AllZeros(h: seq<Byte>) {
    forall i :: 0 <= i < |h| ==> h[i] == 0
  }

  /** ustar_parse_header(). */
  function ParseHeader(h: seq<Byte>): (r: Parsed)
    requires |h| == HEADER_SIZE
  {
    if AllZeros(h) then Eof
    else if Field(h, MAGIC, 6) != USTAR + [0] then Bad(NotUstar)
    else if Field(h, VERSION, 2) != [48, 48] then Bad(BadVersion)
    else
      var chksum := ParseOctal(Field(h, CHKSUM, 8), 0, 0);
      if chksum.None? then Bad(CorruptChksum)
      else if chksum.value != Sum(h, HEADER_SIZE) then Bad(ChksumMismatch)
      else if h[NAME + 99] != 0 || h[PREFIX] != 0 then Bad(NameTooLong)
      else if h[TYPEFLAG] != 48 && h[TYPEFLAG] != 53 then Bad(BadType)
      else
        var name := Strip(D.CString(Field(h, NAME, 100)));
        if h[TYPEFLAG] == 48 then
          var size := ParseOctal(Field(h, SIZE, 12), 0, 0);
          if size.None? then Bad(CorruptSize)
          else if size.value > INT_MAX then Bad(TooLarge)
          else Entry(name, Regular, size.value)
        else Entry(name, Directory, 0)
  }

  /** What a header contains after its fields were filled in. */
  ghost predicate HasFields(h: seq<Byte>, name: D.Name, kind: Type, size: nat) {
    && |h| == HEADER_SIZE
    && (exists rest :: Field(h, NAME, 100) == name + [0] + rest) && h[NAME + 99] == 0
    && Field(h, SIZE, 12) == OctalDigits(size, 11) + [0]
    && h[TYPEFLAG] == TypeByte(kind)
    && Field(h, MAGIC, 6) == USTAR + [0] && Field(h, VERSION, 2) == [48, 48]
    && h[PREFIX] == 0
  }

  lemma PutAt(h: seq<Byte>, ofs: nat, str: seq<Byte>)
    requires ofs + |str| + 1 <= |h|
    ensures forall i :: 0 <= i < |h| ==>
              Put(h, ofs, str)[i] == if ofs <= i < ofs + |str| then str[i - ofs] else if i == ofs + |str| then 0
                else h[i]
  {
  }

  /** The fields written before the size: only the name's bytes can be non-zero below MODE. */
  function Front(name: D.Name, kind: Type): (h: seq<Byte>)
    requires |name| <= 99
    ensures |h| == HEADER_SIZE
  {
    var h := Put(Zeros(HEADER_SIZE), NAME, name);
    var h := Put(h, MODE, OctalDigits(if kind.Regular? then 420 else 493, 7));
    var h := Put(h, UID, SEVEN_ZEROS);
    Put(h, GID, SEVEN_ZEROS)
  }

  function Back(h0: seq<Byte>, kind: Type, size: nat): (h: seq<Byte>)
    requires |h0| == HEADER_SIZE
    ensures |h| == HEADER_SIZE
  {
    var h := Put(h0, SIZE, OctalDigits(size, 11));
    var h := Put(h, MTIME, OctalDigits(1136102400, 11));
    var h := h[TYPEFLAG := TypeByte(kind)];
    var h := Put(h, MAGIC, USTAR);
    var h := h[VERSION := 48][VERSION + 1 := 48];
    var h := Put(h, GNAME, ROOT);
    Put(h, UNAME, ROOT)
  }

  lemma FrontFields(name: D.Name, kind: Type)
    requires |name| <= 99
    ensures var h := Front(name, kind);
            && h[..|name|] == name && (forall i :: |name| <= i < MODE ==> h[i] == 0)
            && h[PREFIX] == 0
  {
    hide Put, OctalDigits;
    var h1 := Put(Zeros(HEADER_SIZE), NAME, name);
    PutAt(Zeros(HEADER_SIZE), NAME, name);
    var mode := OctalDigits(if kind.Regular? then 420 else 493, 7);
    PutAt(h1, MODE, mode);
    var h2 := Put(h1, MODE, mode);
    PutAt(h2, UID, SEVEN_ZEROS);
    PutAt(Put(h2, UID, SEVEN_ZEROS), GID, SEVEN_ZEROS);
  }

  lemma BackFields(h0: seq<Byte>, kind: Type, size: nat)
    requires |h0| == HEADER_SIZE
    ensures var h := Back(h0, kind, size);
            && h[..MODE] == h0[..MODE] && h[PREFIX] == h0[PREFIX]
            && Field(h, SIZE, 12) == OctalDigits(size, 11) + [0]
            && h[TYPEFLAG] == TypeByte(kind)
            && Field(h, MAGIC, 6) == USTAR + [0] && Field(h, VERSION, 2) == [48, 48]
  {
    hide Put, OctalDigits;
    var digits, time := OctalDigits(size, 11), OctalDigits(1136102400, 11);
    var h1 := Put(h0, SIZE, digits);
    PutAt(h0, SIZE, digits);
    PutAt(h1, MTIME, time);
    var h2 := Put(h1, MTIME, time)[TYPEFLAG := TypeByte(kind)];
    PutAt(h2, MAGIC, USTAR);
    var h3 := Put(h2, MAGIC, USTAR)[VERSION := 48][VERSION + 1 := 48];
    PutAt(h3, GNAME, ROOT);
    PutAt(Put(h3, GNAME, ROOT), UNAME, ROOT);
  }

  lemma MakeHasFields(name: D.Name, kind: Type, size: int)
    requires |name| <= 99
    ensures var h := Unsummed(name, kind, size);
            HasFields(Put(h, CHKSUM, OctalDigits(Sum(h, HEADER_SIZE), 7)), name, kind, Unsigned(size))
  {
    hide Put, OctalDigits, Sum;
    var h0 := Front(name, kind);
    var h1 := Back(h0, kind, Unsigned(size));
    assert h1 == Unsummed(name, kind, size);
    FrontFields(name, kind);
    BackFields(h0, kind, Unsigned(size));
    var digits := OctalDigits(Sum(h1, HEADER_SIZE), 7);
    var h := Put(h1, CHKSUM, digits);
    PutAt(h1, CHKSUM, digits);
    var rest := h[|name| + 1..100];
    assert h[..100] == h0[..100];
    assert Field(h, NAME, 100) == name + [0] + rest;
    assert Field(h, SIZE, 12) == Field(h1, SIZE, 12);
    assert Field(h, MAGIC, 6) == Field(h1, MAGIC, 6);
    assert Field(h, VERSION, 2) == Field(h1, VERSION, 2);
  }

  /** Every accepted name, type and size comes back from the header that was made of it: the
      name stripped, and size 0 for a directory.  Only a regular file of negative size makes a
      header that its reader rejects. */
  lemma UstarRoundTrip(fileName: D.Name, kind: Type, size: int)
    requires -INT_MAX - 1 <= size <= INT_MAX && MakeHeader(fileName, kind, size).Some?
    ensures ParseHeader(MakeHeader(fileName, kind, size).value) ==
            if kind.Directory? then Entry(Strip(fileName), kind, 0)
            else if size >= 0 then Entry(Strip(fileName), kind, size)
            else Bad(TooLarge)
  {
    hide Put, OctalDigits, Sum, Unsummed, ParseOctal, Strip, D.CString;
    var name := Strip(fileName);
    var h0 := Unsummed(name, kind, size);
    var sum := Sum(h0, HEADER_SIZE);
    var digits := OctalDigits(sum, 7);
    var h := Put(h0, CHKSUM, digits);
    MakeHasFields(name, kind, size);
    PutAt(h0, CHKSUM, digits);
    assert Field(h, CHKSUM, 8) == digits + [0] + [];
    Powers();
    OctalRoundTrip(sum, 7, []);
    SumIgnoresField(h0, h, HEADER_SIZE);
    var v := Unsigned(size);
    assert OctalDigits(v, 11) + [0] == OctalDigits(v, 11) + [0] + [];
    OctalRoundTrip(v, 11, []);
    var rest :| Field(h, NAME, 100) == name + [0] + rest;
    D.CStringOf(name, rest);
    StripIdempotent(fileName);
    assert Field(h, MAGIC, 6)[0] == 117 == h[MAGIC];
  }

  /** A harmless name comes back as it is. */
  lemma HarmlessRoundTrip(fileName: D.Name, kind: Type, size: nat)
    requires Harmless(fileName) && |fileName| <= 99 && size <= INT_MAX
    ensures MakeHeader(fileName, kind, size).Some?
    ensures ParseHeader(MakeHeader(fileName, kind, size).value) ==
            Entry(fileName, kind, if kind.Directory? then 0 else size)
  {
    hide ParseHeader, Unsummed, Strip;
    StripKeeps(fileName);
    UstarRoundTrip(fileName, kind, size);
  }

  /** The bytes in front of the size field, as the format has them. */
  lemma LayoutFront(name: D.Name, kind: Type)
    requires |name| <= 99
    ensures var h := Front(name, kind);
            && h[..|name|] == name && (forall i :: |name| <= i < 100 ==> h[i] == 0)
            && h[100..108] == [48, 48, 48, 48] + (if kind.Regular? then [54, 52, 52] else [55, 53, 53]) + [0]
            && h[108..116] == [48, 48, 48, 48, 48, 48, 48, 0] && h[116..124] == [48, 48, 48, 48, 48, 48, 48, 0]
            && forall i :: 124 <= i < 512 ==> h[i] == 0
  {
    hide Put, OctalDigits;
    var h1 := Put(Zeros(HEADER_SIZE), NAME, name);
    PutAt(Zeros(HEADER_SIZE), NAME, name);
    var mode := OctalDigits(if kind.Regular? then 420 else 493, 7);
    ModeDigits();
    PutAt(h1, MODE, mode);
    var h2 := Put(h1, MODE, mode);
    PutAt(h2, UID, SEVEN_ZEROS);
    PutAt(Put(h2, UID, SEVEN_ZEROS), GID, SEVEN_ZEROS);
  }

  lemma LastDigits(v: nat, w: nat)
    ensures OctalDigits(v, w + 3) == OctalDigits(v / 512, w) + [48 + v / 64 % 8, 48 + v / 8 % 8, 48 + v % 8]
  {
    assert v / 8 / 8 == v / 64 && v / 64 / 8 == v / 512;
    assert OctalDigits(v, w + 3) == OctalDigits(v / 8, w + 2) + [48 + v % 8];
    assert OctalDigits(v / 8, w + 2) == OctalDigits(v / 64, w + 1) + [48 + v / 8 % 8];
  }

  lemma ModeDigits()
    ensures OctalDigits(420, 7) == [48, 48, 48, 48, 54, 52, 52] && OctalDigits(493, 7) == [48, 48, 48, 48, 55, 53, 53]
  {
    hide OctalDigits;
    LastDigits(420, 4);
    LastDigits(493, 4);
    LastDigits(0, 1);
    OneDigit(0);
  }

  lemma OneDigit(v: nat)
    ensures OctalDigits(v, 1) == [48 + v % 8]
  {
  }

  /** The bytes from the size field on, but for the checksum. */
  lemma LayoutBack(h0: seq<Byte>, kind: Type, size: nat)
    requires |h0| == HEADER_SIZE && forall i :: 124 <= i < 512 ==> h0[i] == 0
    ensures var h := Back(h0, kind, size);
            && h[..124] == h0[..124] && h[124..136] == OctalDigits(size, 11) + [0]
            && h[136..148] == OctalDigits(1136102400, 11) + [0]
            && h[156] == (if kind.Regular? then 48 else 53) && (forall i :: 157 <= i < 257 ==> h[i] == 0)
            && h[257..265] == [117, 115, 116, 97, 114, 0, 48, 48]
            && h[265..270] == [114, 111, 111, 116, 0] && (forall i :: 270 <= i < 297 ==> h[i] == 0)
            && h[297..302] == [114, 111, 111, 116, 0] && (forall i :: 302 <= i < 512 ==> h[i] == 0)
  {
    hide Put, OctalDigits, Back;
    LayoutMiddle(h0, kind, size);
    var h2 := Middle(h0, kind, size);
    BackIs(h0, kind, size);
    PutAt(h2, MAGIC, USTAR);
    var h3 := Put(h2, MAGIC, USTAR)[VERSION := 48][VERSION + 1 := 48];
    PutAt(h3, GNAME, ROOT);
    var h4 := Put(h3, GNAME, ROOT);
    PutAt(h4, UNAME, ROOT);
    var h := Put(h4, UNAME, ROOT);
    assert forall i :: 0 <= i < 257 ==> h[i] == h2[i];
    SliceIs(h, 0, h0[..124]);
    SliceIs(h, 124, OctalDigits(size, 11) + [0]);
    SliceIs(h, 136, OctalDigits(1136102400, 11) + [0]);
    SliceIs(h, 257, [117, 115, 116, 97, 114, 0, 48, 48]);
    SliceIs(h, 265, [114, 111, 111, 116, 0]);
    SliceIs(h, 297, [114, 111, 111, 116, 0]);
  }

  lemma SliceIs(h: seq<Byte>, at: nat, field: seq<Byte>)
    requires at + |field| <= |h| && forall i :: at <= i < at + |field| ==> h[i] == field[i - at]
    ensures h[at..at + |field|] == field
  {
  }

  /** Size, time and type are in. */
  function Middle(h0: seq<Byte>, kind: Type, size: nat): (h: seq<Byte>)
    requires |h0| == HEADER_SIZE
    ensures |h| == HEADER_SIZE
  {
    Put(Put(h0, SIZE, OctalDigits(size, 11)), MTIME, OctalDigits(1136102400, 11))[TYPEFLAG := TypeByte(kind)]
  }

  lemma BackIs(h0: seq<Byte>, kind: Type, size: nat)
    requires |h0| == HEADER_SIZE
    ensures Back(h0, kind, size) ==
            Put(Put(Put(Middle(h0, kind, size), MAGIC, USTAR)[VERSION := 48][VERSION + 1 := 48], GNAME, ROOT),
                UNAME, ROOT)
  {
    hide Put, OctalDigits;
  }

  lemma LayoutMiddle(h0: seq<Byte>, kind: Type, size: nat)
    requires |h0| == HEADER_SIZE && forall i :: 124 <= i < 512 ==> h0[i] == 0
    ensures var h, digits, time := Middle(h0, kind, size), OctalDigits(size, 11), OctalDigits(1136102400, 11);
            && (forall i :: 0 <= i < 124 ==> h[i] == h0[i])
            && (forall i :: 124 <= i < 135 ==> h[i] == digits[i - 124]) && h[135] == 0
            && (forall i :: 136 <= i < 147 ==> h[i] == time[i - 136]) && h[147] == 0
            && h[156] == (if kind.Regular? then 48 else 53) && (forall i :: 157 <= i < 512 ==> h[i] == 0)
  {
    hide Put, OctalDigits;
    var digits, time := OctalDigits(size, 11), OctalDigits(1136102400, 11);
    var h1 := Put(h0, SIZE, digits);
    PutAt(h0, SIZE, digits);
    PutAt(h1, MTIME, time);
  }

  lemma TimeDigits()
    ensures OctalDigits(1136102400, 11) == [49, 48, 51, 53, 53, 55, 48, 54, 48, 48, 48]
  {
    hide OctalDigits;
    LastDigits(1136102400, 8);
    LastDigits(2218950, 5);
    LastDigits(4333, 2);
    EightDigits();
  }

  lemma EightDigits()
    ensures OctalDigits(8, 2) == [49, 48]
  {
  }

  /** The header that ustar_make_header() fills in, field by field: name, mode 0644 or 0755, owner
      and group 0, size, a fixed time, checksum, type, "ustar" with version "00", and "root" as
      user and group; all other bytes are zero. */
  lemma HeaderLayout(fileName: D.Name, kind: Type, size: int)
    requires MakeHeader(fileName, kind, size).Some?
    ensures var h, name := MakeHeader(fileName, kind, size).value, Strip(fileName);
            && |name| <= 99 && h[..|name|] == name && (forall i :: |name| <= i < 100 ==> h[i] == 0)
            && h[100..108] == [48, 48, 48, 48] + (if kind.Regular? then [54, 52, 52] else [55, 53, 53]) + [0]
            && h[108..116] == [48, 48, 48, 48, 48, 48, 48, 0] && h[116..124] == [48, 48, 48, 48, 48, 48, 48, 0]
            && h[124..136] == OctalDigits(Unsigned(size), 11) + [0]
            && h[136..148] == [49, 48, 51, 53, 53, 55, 48, 54, 48, 48, 48, 0]
            && h[148..156] == OctalDigits(ByteSum(h[..148]) + 8 * 32 + ByteSum(h[156..]), 7) + [0]
            && h[156] == (if kind.Regular? then 48 else 53) && (forall i :: 157 <= i < 257 ==> h[i] == 0)
            && h[257..265] == [117, 115, 116, 97, 114, 0, 48, 48]
            && h[265..270] == [114, 111, 111, 116, 0] && (forall i :: 270 <= i < 297 ==> h[i] == 0)
            && h[297..302] == [114, 111, 111, 116, 0] && (forall i :: 302 <= i < 512 ==> h[i] == 0)
  {
    hide Put, OctalDigits, Sum, Strip, Unsummed, Front, Back, ByteSum;
    var name := Strip(fileName);
    var h0 := Front(name, kind);
    var h1 := Back(h0, kind, Unsigned(size));
    FrontAndBack(name, kind, size);
    LayoutFront(name, kind);
    LayoutBack(h0, kind, Unsigned(size));
    TimeDigits();
    ChecksumIs(h1);
    SummedLayout(h1, OctalDigits(Sum(h1, HEADER_SIZE), 7));
  }

  lemma FrontAndBack(name: D.Name, kind: Type, size: int)
    requires |name| <= 99
    ensures Back(Front(name, kind), kind, Unsigned(size)) == Unsummed(name, kind, size)
  {
    hide Put, OctalDigits;
  }

  /** The checksum goes into its own field alone. */
  lemma SummedLayout(h: seq<Byte>, digits: seq<Byte>)
    requires |h| == HEADER_SIZE && |digits| == 7
    ensures var h' := Put(h, CHKSUM, digits);
            && h'[..148] == h[..148] && h'[148..156] == digits + [0] && h'[156..] == h[156..]
            && forall i :: 0 <= i < 512 && !(148 <= i < 156) ==> h'[i] == h[i]
  {
    PutAt(h, CHKSUM, digits);
  }

  // ----- What ustar_parse_header() accepts -----

  /** The order in which the header is complained about. */
  function Rank(e: Error): nat {
    match e
    case NotUstar => 0
    case BadVersion => 1
    case CorruptChksum => 2
    case ChksumMismatch => 3
    case NameTooLong => 4
    case BadType => 5
    case CorruptSize => 6
    case TooLarge => 7
  }

  /** What is wrong with a header, in terms of the format's bytes. */
  ghost predicate Wrong(h: seq<Byte>, e: Error)
    requires |h| == HEADER_SIZE
  {
    match e
    case NotUstar => h[257..263] != [117, 115, 116, 97, 114, 0]
    case BadVersion => h[263] != 48 || h[264] != 48
    case CorruptChksum => forall v: nat, n: nat :: !IsOctal(h[148..156], n, v)
    case ChksumMismatch =>
      exists v: nat, n: nat :: IsOctal(h[148..156], n, v) && v != ByteSum(h[..148]) + 8 * 32 + ByteSum(h[156..])
    case NameTooLong => h[99] != 0 || h[345] != 0
    case BadType => h[156] != 48 && h[156] != 53
    case CorruptSize => h[156] == 48 && forall v: nat, n: nat :: !IsOctal(h[124..136], n, v)
    case TooLarge => h[156] == 48 && exists v: nat, n: nat :: IsOctal(h[124..136], n, v) && v > 2147483647
  }

  /** What the parser finds in an octal field. */
  lemma FieldParsed(s: seq<Byte>)
    ensures ParseOctal(s, 0, 0).None? <==> forall v: nat, n: nat :: !IsOctal(s, n, v)
    ensures ParseOctal(s, 0, 0).Some? ==>
              && (exists n: nat :: IsOctal(s, n, ParseOctal(s, 0, 0).value))
              && (forall v: nat, n: nat :: IsOctal(s, n, v) ==> v == ParseOctal(s, 0, 0).value)
  {
    hide IsOctal, ParseOctal;
    var r := ParseOctal(s, 0, 0);
    if r.Some? {
      ParseOctalIff(s, r.value);
    }
    forall v: nat, n: nat | IsOctal(s, n, v) ensures r == Some(v) {
      ParseOctalIff(s, v);
    }
  }

  /** The complaint is the first thing that is wrong with a header. */
  lemma ComplaintIff(h: seq<Byte>, e: Error)
    requires |h| == HEADER_SIZE && exists i :: 0 <= i < 512 && h[i] != 0
    ensures ParseHeader(h) == Bad(e) <==> Wrong(h, e) && forall e' :: Rank(e') < Rank(e) ==> !Wrong(h, e')
  {
    hide Strip, D.CString, Wrong;
    WrongMeaning(h);
    forall e' | Rank(e') < Rank(e) ensures e' in [NotUstar, BadVersion, CorruptChksum, ChksumMismatch, NameTooLong,
                                                  BadType, CorruptSize] {
    }
  }

  /** The checks, in the parser's terms. */
  lemma WrongMeaning(h: seq<Byte>)
    requires |h| == HEADER_SIZE
    ensures Wrong(h, NotUstar) <==> Field(h, MAGIC, 6) != USTAR + [0]
    ensures Wrong(h, BadVersion) <==> Field(h, VERSION, 2) != [48, 48]
    ensures Wrong(h, CorruptChksum) <==> ParseOctal(Field(h, CHKSUM, 8), 0, 0).None?
    ensures Wrong(h, ChksumMismatch) <==>
              ParseOctal(Field(h, CHKSUM, 8), 0, 0).Some?
                && ParseOctal(Field(h, CHKSUM, 8), 0, 0).value != Sum(h, HEADER_SIZE)
    ensures Wrong(h, NameTooLong) <==> h[NAME + 99] != 0 || h[PREFIX] != 0
    ensures Wrong(h, BadType) <==> h[TYPEFLAG] != 48 && h[TYPEFLAG] != 53
    ensures Wrong(h, CorruptSize) <==> h[TYPEFLAG] == 48 && ParseOctal(Field(h, SIZE, 12), 0, 0).None?
    ensures Wrong(h, TooLarge) <==>
              h[TYPEFLAG] == 48 && ParseOctal(Field(h, SIZE, 12), 0, 0).Some?
                && ParseOctal(Field(h, SIZE, 12), 0, 0).value > INT_MAX
  {
    hide IsOctal, ParseOctal, Sum, ByteSum;
    FieldParsed(h[148..156]);
    FieldParsed(h[124..136]);
    ChecksumIs(h);
    assert h[263..265] == [h[263], h[264]];
  }

  /** A header with nothing wrong yields its stripped name, its type and, for a regular file, its
      size; a header of zeros ends the archive. */
  lemma ParsesIff(h: seq<Byte>)
    requires |h| == HEADER_SIZE
    ensures ParseHeader(h).Eof? <==> forall i :: 0 <= i < 512 ==> h[i] == 0
    ensures ParseHeader(h).Entry? <==> !ParseHeader(h).Eof? && forall e :: !Wrong(h, e)
    ensures ParseHeader(h).Entry? ==>
              && ParseHeader(h).name == Strip(D.CString(h[..100]))
              && (h[156] == 48 ==>
                  ParseHeader(h).kind == Regular && exists n: nat :: IsOctal(h[124..136], n, ParseHeader(h).size))
              && (h[156] != 48 ==> h[156] == 53 && ParseHeader(h).kind == Directory && ParseHeader(h).size == 0)
  {
    hide Strip, D.CString, Wrong, IsOctal, ParseOctal, Sum;
    WrongMeaning(h);
    FieldParsed(h[124..136]);
    if ParseHeader(h).Entry? {
      forall e ensures !Wrong(h, e) {
        match e
        case NotUstar =>
        case BadVersion =>
        case CorruptChksum =>
        case ChksumMismatch =>
        case NameTooLong =>
        case BadType =>
        case CorruptSize =>
        case TooLarge =>
      }
    }
  }

  lemma Powers()
    ensures Pow8(7) == 2097152 && Pow8(11) == 8589934592
  {
    assert Pow8(3) == 512;
    assert Pow8(7) == 8 * 8 * 8 * 8 * Pow8(3);
    assert Pow8(11) == 8 * 8 * 8 * 8 * Pow8(7);
  }

  /** Changing any one byte outside the checksum field of a header that parses makes it
      unreadable. */
  lemma CorruptionDetected(h: seq<Byte>, i: nat, b: Byte)
    requires |h| == HEADER_SIZE && ParseHeader(h).Entry?
    requires i < HEADER_SIZE && !(CHKSUM <= i < TYPEFLAG) && b != h[i]
    ensures ParseHeader(h[i := b]).Bad?
  {
    hide ParseOctal, Sum, Strip, D.CString;
    var h' := h[i := b];
    SumSeesByte(h, i, b, HEADER_SIZE);
    assert Field(h', CHKSUM, 8) == Field(h, CHKSUM, 8);
    assert h[MAGIC] == Field(h, MAGIC, 6)[0] == 117 && h[MAGIC + 1] == Field(h, MAGIC, 6)[1] == 115;
    assert h'[MAGIC] != 0 || h'[MAGIC + 1] != 0;
  }

  // ----- The source's loops -----

  /** The digits of v without leading zeros; none for 0. */
  function Minimal(v: nat): (r: seq<Byte>) {
    if v == 0 then [] else Minimal(v / 8) + [48 + v % 8]
  }

  function Repeat(b: Byte, n: int): (r: seq<Byte>)
    ensures |r| == if n > 0 then n else 0
  {
    seq(if n > 0 then n else 0, i => b)
  }

  /** What "%0<width>o" prints. */
  function Printed(v: nat, width: nat): (r: seq<Byte>) {
    var digits := if v == 0 then [48] else Minimal(v);
    Repeat(48, width - |digits|) + digits
  }

  lemma {:induction false} MinimalPadded(v: nat, w: nat)
    requires v < Pow8(w)
    ensures |Minimal(v)| <= w && Repeat(48, w - |Minimal(v)|) + Minimal(v) == OctalDigits(v, w)
  {
    if w == 0 {
    } else if v == 0 {
      MinimalPadded(0, w - 1);
      assert Repeat(48, w) == Repeat(48, w - 1) + [48];
    } else {
      MinimalPadded(v / 8, w - 1);
      var init := Minimal(v / 8);
      assert Minimal(v) == init + [48 + v % 8];
      assert Repeat(48, w - |Minimal(v)|) + Minimal(v) == (Repeat(48, w - 1 - |init|) + init) + [48 + v % 8];
    }
  }

  /** A value that fits is printed as its digits in the full width. */
  lemma PrintedIsDigits(v: nat, w: nat)
    requires v < Pow8(w) && w > 0
    ensures Printed(v, w) == OctalDigits(v, w)
  {
    MinimalPadded(v, w);
    if v == 0 {
      assert Repeat(48, w - 1) + [48] == Repeat(48, w);
    }
  }

  lemma ValueSnoc(s: seq<Byte>, b: Byte)
    ensures OctalValue(s + [b]) == 8 * OctalValue(s) + (b as int) - 48
    ensures Digits(s) && 48 <= b <= 55 ==> Digits(s + [b])
  {
    assert (s + [b])[..|s|] == s;
  }

  lemma MinimalUnfolds(v: nat)
    ensures Minimal(v) == if v == 0 then [] else Minimal(v / 8) + [48 + v % 8]
  {
  }

  lemma {:induction false} MinimalMeans(v: nat)
    ensures Digits(Minimal(v)) && OctalValue(Minimal(v)) == v && (v > 0 ==> |Minimal(v)| > 0 && Minimal(v)[0] != 48)
  {
    MinimalUnfolds(v);
    if v > 0 {
      hide Minimal, OctalValue, Digits;
      MinimalMeans(v / 8);
      MinimalUnfolds(v / 8);
      ValueSnoc(Minimal(v / 8), 48 + v % 8);
    }
  }

  lemma {:induction false} ZerosInFront(n: nat, s: seq<Byte>)
    requires Digits(s)
    ensures Digits(Repeat(48, n) + s) && OctalValue(Repeat(48, n) + s) == OctalValue(s)
    decreases |s| + n
  {
    var z := Repeat(48, n);
    if s != [] {
      ZerosInFront(n, s[..|s| - 1]);
      assert (z + s)[..|z + s| - 1] == z + s[..|s| - 1];
    } else if n > 0 {
      ZerosInFront(n - 1, []);
      assert z + s == z;
      assert z[..n - 1] == Repeat(48, n - 1) + [];
    }
  }

  /** What is printed are octal digits of the value, at least one and at least `width`, and without
      a superfluous zero in front. */
  lemma PrintedMeans(v: nat, width: nat)
    ensures var out := Printed(v, width);
            && Digits(out) && OctalValue(out) == v && |out| >= 1 && |out| >= width
            && (|out| > width && |out| > 1 ==> out[0] != 48)
  {
    MinimalMeans(v);
    var digits := if v == 0 then [48] else Minimal(v);
    assert [48][..0] == [];
    assert OctalValue([48]) == 0;
    if width > |digits| {
      ZerosInFront(width - |digits|, digits);
    } else {
      assert Printed(v, width) == digits;
    }
  }

  /** The digits that format_integer() accumulates, in reverse order. */
  method DigitBuffer(value: nat) returns (buf: seq<Byte>)
    ensures Reversed(buf) == if value == 0 then [48] else Minimal(value)
  {
    buf := [];
    var v := value;
    while v > 0
      invariant Minimal(value) == Minimal(v) + Reversed(buf)
      decreases v
    {
      ReversedSnoc(buf, 48 + v % 8);
      buf := buf + [48 + v % 8];
      v := v / 8;
    }
    ReversedLength(buf);
    if |buf| == 0 {
      buf := [48];
    }
  }

  /** format_integer() for an unsigned octal conversion with the 0 flag and no precision. */
  method FormatOctal(value: nat, width: nat) returns (out: seq<Byte>)
    ensures out == Printed(value, width)
  {
    hide Minimal, Reversed;
    var buf := DigitBuffer(value);
    ReversedLength(buf);
    out := [];
    while |out| < width - |buf|
      invariant out == Repeat(48, |out|) && |out| <= |Repeat(48, width - |buf|)|
      decreases width - |buf| - |out|
    {
      out := out + [48];
    }
    ghost var zeros := out;
    var cp := |buf|;
    assert buf[..cp] == buf;
    while cp > 0
      invariant 0 <= cp <= |buf|
      invariant zeros + Reversed(buf) == out + Reversed(buf[..cp])
    {
      cp := cp - 1;
      ReversedSnoc(buf[..cp], buf[cp]);
      assert buf[..cp] + [buf[cp]] == buf[..cp + 1];
      out := out + [buf[cp]];
    }
    ReversedLength(buf[..cp]);
  }

  function Reversed(s: seq<Byte>): seq<Byte> {
    if s == [] then [] else [s[|s| - 1]] + Reversed(s[..|s| - 1])
  }

  lemma ReversedSnoc(s: seq<Byte>, b: Byte)
    ensures Reversed(s + [b]) == [b] + Reversed(s)
  {
    assert (s + [b])[..|s|] == s;
  }

  lemma {:induction false} ReversedLength(s: seq<Byte>)
    ensures |Reversed(s)| == |s|
  {
    if s != [] {
      ReversedLength(s[..|s| - 1]);
    }
  }

  /** The prefixes "/", "./" and "../". */
  predicate Antisocial(r: D.Name) {
    || (|r| >= 1 && r[0] == 47)
    || (|r| >= 2 && r[..2] == [46, 47])
    || (|r| >= 3 && r[..3] == [46, 46, 47])
  }

  lemma HasSlash(r: D.Name)
    requires Antisocial(r)
    ensures 47 in r
  {
    assert |r| >= 2 && r[..2] == [46, 47] ==> r[1] == r[..2][1];
    assert |r| >= 3 && r[..3] == [46, 46, 47] ==> r[2] == r[..3][2];
  }

  /** Such a prefix ends at the first slash. */
  lemma StripStep(r: D.Name, slash: nat)
    requires Antisocial(r) && slash < |r| && r[slash] == 47 && forall k :: 0 <= k < slash ==> r[k] != 47
    ensures StripPrefixes(r) == StripPrefixes(r[slash + 1..])
  {
    hide StripPrefixes;
    if r[0] == 47 {
      assert slash == 0;
    } else if r[..2] == [46, 47] {
      assert r[..2][0] == r[0] && r[..2][1] == r[1];
      assert slash == 1;
    } else {
      assert r[..3][0] == r[0] && r[..3][1] == r[1] && r[..3][2] == r[2];
      assert slash == 2;
    }
    StripOnce(r);
  }

  lemma StripOnce(r: D.Name)
    requires Antisocial(r)
    ensures StripPrefixes(r) == StripPrefixes(r[if r[0] == 47 then 1 else if r[..2] == [46, 47] then 2 else 3..])
  {
  }

  /** strip_antisocial_prefixes(). */
  method StripName(name: D.Name) returns (r: D.Name)
    ensures r == Strip(name)
  {
    hide StripPrefixes, Antisocial;
    r := name;
    while Antisocial(r)
      invariant StripPrefixes(r) == StripPrefixes(name)
      decreases |r|
    {
      HasSlash(r);
      var slash := FindSlash(r);
      StripStep(r, slash);
      r := r[slash + 1..];
    }
    NothingToStrip(r);
    if |r| == 0 || r == [46, 46] {
      r := [46];
    }
  }

  lemma NothingToStrip(r: D.Name)
    requires !Antisocial(r)
    ensures StripPrefixes(r) == r
  {
  }

  /** strchr() for a slash that is known to be there. */
  method FindSlash(s: seq<Byte>) returns (slash: nat)
    requires 47 in s
    ensures slash < |s| && s[slash] == 47 && forall k :: 0 <= k < slash ==> s[k] != 47
  {
    slash := 0;
    while s[slash] != 47
      invariant slash < |s| && forall k :: 0 <= k < slash ==> s[k] != 47
      decreases |s| - slash
    {
      slash := slash + 1;
    }
  }

  /** calculate_chksum(). */
  method CalculateChksum(h: array<Byte>) returns (sum: nat)
    requires h.Length == HEADER_SIZE
    ensures sum == Sum(h[..], HEADER_SIZE)
  {
    sum := 0;
    var i := 0;
    while i < HEADER_SIZE
      invariant 0 <= i <= HEADER_SIZE
      invariant sum == Sum(h[..], i)
    {
      var inField := CHKSUM <= i < TYPEFLAG;
      sum := sum + if inField then 32 else h[i];
      i := i + 1;
    }
  }

  /** parse_octal_field(). */
  method ParseOctalField(s: seq<Byte>) returns (r: Option<nat>)
    ensures r == ParseOctal(s, 0, 0)
  {
    var ofs, value := 0, 0;
    while ofs < |s|
      invariant 0 <= ofs <= |s| && 0 <= value
      invariant ParseOctal(s, ofs, value) == ParseOctal(s, 0, 0)
    {
      var c := s[ofs];
      if 48 <= c <= 55 {
        if value > ULONG_MAX / 8 {
          return None;
        }
        value := c - 48 + value * 8;
      } else if c == 32 || c == 0 {
        return if ofs > 0 then Some(value) else None;
      } else {
        return None;
      }
      ofs := ofs + 1;
    }
    return None;
  }

  /** strlcpy(), and the output of snprintf(), into a field of `size` bytes at ofs. */
  method CopyString(h: array<Byte>, ofs: nat, size: nat, str: seq<Byte>) returns (len: nat)
    requires ofs + size <= h.Length
    modifies h
    ensures len == |str|
    ensures size == 0 ==> h[..] == old(h[..])
    ensures |str| < size ==> h[..] == Put(old(h[..]), ofs, str)
    ensures 0 < size <= |str| ==> h[..] == Put(old(h[..]), ofs, str[..size - 1])
  {
    len := |str|;
    if size == 0 {
      return;
    }
    var n := if |str| < size - 1 then |str| else size - 1;
    forall j | 0 <= j < n {
      h[ofs + j] := str[j];
    }
    h[ofs + n] := 0;
    assert str[..n] == if |str| < size then str else str[..size - 1];
    assert h[..] == Put(old(h[..]), ofs, str[..n]);
  }

  /** snprintf() of "%0<width>o" into a field. */
  method PrintOctal(h: array<Byte>, ofs: nat, width: nat, value: nat)
    requires ofs + width + 1 <= h.Length && 0 < width && value < Pow8(width)
    modifies h
    ensures h[..] == Put(old(h[..]), ofs, OctalDigits(value, width))
  {
    PrintedIsDigits(value, width);
    var digits := FormatOctal(value, width);
    var _ := CopyString(h, ofs, width + 1, digits);
  }

  /** ustar_make_header(); the buffer is left alone when the name is too long. */
  method UstarMakeHeader(fileName: D.Name, kind: Type, size: int, h: array<Byte>) returns (ok: bool)
    requires h.Length == HEADER_SIZE
    modifies h
    ensures ok == MakeHeader(fileName, kind, size).Some?
    ensures h[..] == if ok then MakeHeader(fileName, kind, size).value else old(h[..])
  {
    hide Put, OctalDigits, Sum, Strip;
    var name := StripName(fileName);
    if |name| > 99 {
      return false;
    }
    Powers();
    forall j | 0 <= j < HEADER_SIZE {
      h[j] := 0;
    }
    assert h[..] == Zeros(HEADER_SIZE);
    var _ := CopyString(h, NAME, 100, name);
    PrintOctal(h, MODE, 7, if kind.Regular? then 420 else 493);
    var _ := CopyString(h, UID, 8, SEVEN_ZEROS);
    var _ := CopyString(h, GID, 8, SEVEN_ZEROS);
    PrintOctal(h, SIZE, 11, Unsigned(size));
    PrintOctal(h, MTIME, 11, 1136102400);
    h[TYPEFLAG] := TypeByte(kind);
    var _ := CopyString(h, MAGIC, 6, USTAR);
    h[VERSION] := 48;
    h[VERSION + 1] := 48;
    var _ := CopyString(h, GNAME, 32, ROOT);
    var _ := CopyString(h, UNAME, 32, ROOT);
    assert h[..] == Unsummed(name, kind, size);
    var sum := CalculateChksum(h);
    PrintOctal(h, CHKSUM, 7, sum);
    return true;
  }

  /** is_all_zeros(). */
  method IsAllZeros(h: array<Byte>) returns (r: bool)
    ensures r == AllZeros(h[..])
  {
    var i := 0;
    while i < h.Length
      invariant 0 <= i <= h.Length
      invariant forall k :: 0 <= k < i ==> h[k] == 0
    {
      if h[i] != 0 {
        assert h[..][i] != 0;
        return false;
      }
      i := i + 1;
    }
    return true;
  }

  /** ustar_parse_header(). */
  method UstarParseHeader(h: array<Byte>) returns (r: Parsed)
    requires h.Length == HEADER_SIZE
    ensures r == ParseHeader(h[..])
  {
    hide ParseOctal, Sum, Strip, D.CString;
    var eof := IsAllZeros(h);
    if eof {
      return Eof;
    }
    if h[MAGIC..MAGIC + 6] != USTAR + [0] {
      return Bad(NotUstar);
    } else if h[VERSION..VERSION + 2] != [48, 48] {
      return Bad(BadVersion);
    }
    var chksum := ParseOctalField(h[CHKSUM..CHKSUM + 8]);
    if chksum.None? {
      return Bad(CorruptChksum);
    }
    var sum := CalculateChksum(h);
    if chksum.value != sum {
      return Bad(ChksumMismatch);
    } else if h[NAME + 99] != 0 || h[PREFIX] != 0 {
      return Bad(NameTooLong);
    } else if h[TYPEFLAG] != 48 && h[TYPEFLAG] != 53 {
      return Bad(BadType);
    }
    var size := 0;
    if h[TYPEFLAG] == 48 {
      var parsed := ParseOctalField(h[SIZE..SIZE + 12]);
      if parsed.None? {
        return Bad(CorruptSize);
      } else if parsed.value > INT_MAX {
        return Bad(TooLarge);
      }
      size := parsed.value;
    }
    var name := StripName(D.CString(h[NAME..NAME + 100]));
    r := Entry(name, if h[TYPEFLAG] == 48 then Regular else Directory, size);
  }
}
