/** The argument stack of a new process: setup_stack() of proj2's userprog/process.c with
    strtok_r() of lib/string.c.  The page is the one below PHYS_BASE; positions are offsets in
    it, and pointers stored in it are user addresses. */
module SetupStack {

  import opened Lists
  import opened Blocks
  import D = Directory

  const PGSIZE := 4096
  const BASE: nat := 0xBFFF_F000
  const SPACE: Byte := 32
  const SPACES: seq<Byte> := [SPACE]

  // ----- Tokens -----

  function Skip(s: seq<Byte>, delims: seq<Byte>): (r: seq<Byte>)
    ensures |r| <= |s| && r == s[|s| - |r|..]
    ensures r != [] ==> r[0] !in delims
  {
    if s != [] && s[0] in delims then Skip(s[1..], delims) else s
  }

  function WordLen(s: seq<Byte>, delims: seq<Byte>): (n: nat)
    ensures n <= |s| && (forall i :: 0 <= i < n ==> s[i] !in delims)
    ensures n < |s| ==> s[n] in delims
    ensures s != [] && s[0] !in delims ==> n > 0
  {
    if s == [] || s[0] in delims then 0 else 1 + WordLen(s[1..], delims)
  }

  /** The tokens that strtok_r() returns in turn. */
  function Tokens(s: seq<Byte>, delims: seq<Byte>): (r: seq<seq<Byte>>)
    decreases |s|
  {
    var t := Skip(s, delims);
    if t == [] then [] else [t[..WordLen(t, delims)]] + Tokens(t[WordLen(t, delims)..], delims)
  }

  predicate NoNul(s: seq<Byte>) {
    forall i :: 0 <= i < |s| ==> s[i] != 0
  }

  lemma SliceNoNul(s: seq<Byte>, i: nat, j: nat)
    requires NoNul(s) && i <= j <= |s|
    ensures NoNul(s[i..j]) && s[i..|s|] == s[i..] && s[0..j] == s[..j]
  {
  }

  lemma {:induction false} TokensNoNul(s: seq<Byte>, delims: seq<Byte>)
    requires NoNul(s)
    ensures forall k :: 0 <= k < |Tokens(s, delims)| ==> NoNul(Tokens(s, delims)[k])
    decreases |s|
  {
    hide Skip, WordLen, NoNul;
    var t := Skip(s, delims);
    if t != [] {
      var n := |s| - |t|;
      SliceNoNul(s, n, |s|);
      SliceNoNul(t, 0, WordLen(t, delims));
      SliceNoNul(t, WordLen(t, delims), |t|);
      TokensNoNul(t[WordLen(t, delims)..], delims);
    }
  }

  /** Starts of words; `p` says whether what comes before is a space. */
  function WordStarts(s: seq<Byte>, p: bool): nat {
    if s == [] then 0 else (if s[0] != SPACE && p then 1 else 0) + WordStarts(s[1..], s[0] == SPACE)
  }

  /** Starts of runs of spaces. */
  function SpaceStarts(s: seq<Byte>, p: bool): nat {
    if s == [] then 0 else (if s[0] == SPACE && !p then 1 else 0) + SpaceStarts(s[1..], s[0] == SPACE)
  }

  /** What setup_stack() counts as argc. */
  function Argc(s: seq<Byte>): nat {
    1 + SpaceStarts(s, false)
  }

  /** Words and runs of spaces alternate. */
  lemma {:induction false} Alternate(s: seq<Byte>, p: bool)
    ensures WordStarts(s, p) + (if p then 0 else 1)
            == SpaceStarts(s, p) + (if (if s == [] then p else s[|s| - 1] == SPACE) then 0 else 1)
  {
    if s != [] {
      Alternate(s[1..], s[0] == SPACE);
    }
  }

  lemma {:induction false} SkipStarts(s: seq<Byte>)
    ensures WordStarts(s, true) == WordStarts(Skip(s, SPACES), true)
  {
    if s != [] && s[0] == SPACE {
      SkipStarts(s[1..]);
    }
  }

  lemma {:induction false} WordCounts(s: seq<Byte>)
    ensures WordStarts(s, false) == WordStarts(s[WordLen(s, SPACES)..], true)
    ensures s != [] && s[0] != SPACE ==> WordStarts(s, true) == 1 + WordStarts(s[WordLen(s, SPACES)..], true)
  {
    if s != [] && s[0] != SPACE {
      WordCounts(s[1..]);
      assert s[WordLen(s, SPACES)..] == s[1..][WordLen(s[1..], SPACES)..];
    } else {
      assert s[0..] == s;
    }
  }

  lemma {:induction false} TokensAreWords(s: seq<Byte>)
    ensures |Tokens(s, SPACES)| == WordStarts(s, true)
    decreases |s|
  {
    SkipStarts(s);
    var t := Skip(s, SPACES);
    if t != [] {
      WordCounts(t);
      TokensAreWords(t[WordLen(t, SPACES)..]);
    }
  }

  /** setup_stack() counts the tokens right exactly when the command line is not empty and
      neither begins nor ends with a space; otherwise it counts too many. */
  lemma ArgcExactIff(s: seq<Byte>)
    ensures |Tokens(s, SPACES)| <= Argc(s)
    ensures |Tokens(s, SPACES)| == Argc(s) <==> s != [] && s[0] != SPACE && s[|s| - 1] != SPACE
  {
    TokensAreWords(s);
    Alternate(s, false);
  }

  /** A leading space is enough. */
  lemma LeadingSpaceMiscounted()
    ensures |Tokens([SPACE, 97], SPACES)| < Argc([SPACE, 97])
  {
    ArgcExactIff([SPACE, 97]);
  }

  // ----- The strings -----

  /** Where the k-th string starts, relative to the first. */
  function Offset(toks: seq<seq<Byte>>, k: nat): (r: nat)
    requires k <= |toks|
  {
    if k == 0 then 0 else Offset(toks, k - 1) + |toks[k - 1]| + 1
  }

  lemma {:induction false} OffsetMono(toks: seq<seq<Byte>>, j: nat, k: nat)
    requires j <= k <= |toks|
    ensures Offset(toks, j) <= Offset(toks, k)
    ensures j < k ==> Offset(toks, j) + |toks[j]| + 1 <= Offset(toks, k)
  {
    if j < k {
      OffsetMono(toks, j, k - 1);
    }
  }

  lemma {:induction false} OffsetCons(t: seq<Byte>, toks: seq<seq<Byte>>, k: nat)
    requires k <= |toks|
    ensures Offset([t] + toks, k + 1) == |t| + 1 + Offset(toks, k)
  {
    if k > 0 {
      OffsetCons(t, toks, k - 1);
    }
  }

  /** All the strings fit in the room of the command line. */
  lemma {:induction false} TokensFit(s: seq<Byte>, delims: seq<Byte>)
    ensures Offset(Tokens(s, delims), |Tokens(s, delims)|) <= |s| + 1
    decreases |s|
  {
    hide Skip, WordLen, Tokens, Offset;
    var t := Skip(s, delims);
    if t != [] {
      var w := WordLen(t, delims);
      var rest := t[w..];
      FirstToken(s, t, w, delims);
      OffsetCons(t[..w], Tokens(rest, delims), |Tokens(rest, delims)|);
      if rest != [] {
        DelimFirst(rest, delims);
        TokensFit(rest[1..], delims);
      } else {
        EmptyTokens(delims);
        OffsetZero([]);
      }
    } else {
      NoTokens(s, delims);
      OffsetZero([]);
    }
  }

  // ----- The finished stack -----

  function Word(page: seq<Byte>, at: nat): nat
    requires at + 4 <= |page|
  {
    Decode32(page[at..at + 4])
  }

  /** Size of the whole image. */
  function ImageSize(len: nat, argc: nat): nat {
    len + 1 + (4 - (len + 1) % 4) + 4 + 4 * argc + 12
  }

  /** From the top of the page down: the line with its NUL, one to four bytes of padding, argc
      pointers and a null one, argv, argc and the return address; the padding aligns them all. */
  lemma ImageLayout(len: nat, argc: nat)
    ensures 1 <= ImageSize(len, argc) - ((len + 1) + 4 * (argc + 1) + 3 * 4) <= 4
    ensures ImageSize(len, argc) % 4 == 0
  {
  }

  /** The stack that the program's start-up code expects: return address 0, argc, argv; argv[i]
      points to string i, the next entry after the last string is null, and the strings lie
      one behind the other above the pointers. */
  ghost predicate IsStack(page: seq<Byte>, esp: nat, toks: seq<seq<Byte>>, argc: nat, strings: nat) {
    && |page| == PGSIZE && (BASE + esp) % 4 == 0 && |toks| <= argc
    && esp + 12 + 4 * argc + 4 <= strings && strings + Offset(toks, |toks|) <= PGSIZE
    && Word(page, esp) == 0 && Word(page, esp + 4) == argc && Word(page, esp + 8) == BASE + esp + 12
    && (forall k: nat :: k < |toks| ==> PointerAt(page, esp, toks, strings, k))
    && (forall k: nat :: |toks| <= k <= argc ==> Word(page, esp + 12 + 4 * k) == 0)
  }

  ghost predicate PointerAt(page: seq<Byte>, esp: nat, toks: seq<seq<Byte>>, strings: nat, k: nat)
    requires |page| == PGSIZE && k < |toks| && esp + 12 + 4 * |toks| + 4 <= PGSIZE
  {
    var at := strings + Offset(toks, k);
    && at + |toks[k]| + 1 <= PGSIZE
    && Word(page, esp + 12 + 4 * k) == BASE + at
    && page[at..at + |toks[k]| + 1] == toks[k] + [0]
  }

  /** What a program reads: argv[i] as a C string. */
  function Argument(page: seq<Byte>, esp: nat, i: nat): (r: Option<seq<Byte>>)
    requires |page| == PGSIZE && esp + 12 <= PGSIZE
  {
    var argv := Word(page, esp + 8);
    if !(BASE <= argv + 4 * i && argv + 4 * i + 4 <= BASE + PGSIZE) then None
    else
      var p := Word(page, argv + 4 * i - BASE);
      if BASE <= p < BASE + PGSIZE then Some(D.CString(page[p - BASE..])) else None
  }

  /** The program reads back the tokens of the command line. */
  lemma StackDecodes(page: seq<Byte>, esp: nat, toks: seq<seq<Byte>>, argc: nat, strings: nat, i: nat)
    requires IsStack(page, esp, toks, argc, strings) && forall k :: 0 <= k < |toks| ==> NoNul(toks[k])
    ensures i < |toks| ==> Argument(page, esp, i) == Some(toks[i])
    ensures |toks| <= i <= argc ==> Argument(page, esp, i) == None
  {
    hide Offset, Decode32, D.CString;
    if i < |toks| {
      assert PointerAt(page, esp, toks, strings, i) && NoNul(toks[i]);
      var at := strings + Offset(toks, i);
      var n := |toks[i]| + 1;
      assert page[at..] == toks[i] + [0] + page[at + n..] by {
        assert page[at..] == page[at..at + n] + page[at + n..];
      }
      D.CStringOf(toks[i], page[at + n..]);
    }
  }

  /** What a program sees: argc, the tokens of its command line behind argv, and null behind
      them. */
  ghost predicate ReadsBack(page: seq<Byte>, esp: nat, cmd: seq<Byte>) {
    && |page| == PGSIZE && esp + 12 <= PGSIZE
    && var toks := Tokens(cmd, SPACES);
       && Word(page, esp + 4) == Argc(cmd)
       && (forall i: nat :: i < |toks| ==> Argument(page, esp, i) == Some(toks[i]))
       && (forall i: nat :: |toks| <= i <= Argc(cmd) ==> Argument(page, esp, i) == None)
  }

  lemma StackReadsBack(page: seq<Byte>, esp: nat, cmd: seq<Byte>, strings: nat)
    requires NoNul(cmd) && IsStack(page, esp, Tokens(cmd, SPACES), Argc(cmd), strings)
    ensures ReadsBack(page, esp, cmd)
  {
    hide Tokens, Argument, Argc, NoNul, Decode32, Offset;
    var toks := Tokens(cmd, SPACES);
    TokensNoNul(cmd, SPACES);
    forall i: nat | i < |toks| ensures Argument(page, esp, i) == Some(toks[i]) {
      StackDecodes(page, esp, toks, Argc(cmd), strings, i);
    }
    forall i: nat | |toks| <= i <= Argc(cmd) ensures Argument(page, esp, i) == None {
      StackDecodes(page, esp, toks, Argc(cmd), strings, i);
    }
  }

  // ----- Building it -----

  ghost predicate Bounds(esp: nat, toks: seq<seq<Byte>>, argc: nat, strings: nat) {
    && (BASE + esp) % 4 == 0 && |toks| <= argc
    && esp + 12 + 4 * argc + 4 <= strings && strings + Offset(toks, |toks|) <= PGSIZE
  }

  /** The stack after i strings and pointers were stored. */
  ghost predicate Filled(page: seq<Byte>, esp: nat, toks: seq<seq<Byte>>, argc: nat, strings: nat, i: nat) {
    && |page| == PGSIZE && Bounds(esp, toks, argc, strings) && i <= |toks|
    && Word(page, esp) == 0 && Word(page, esp + 4) == argc && Word(page, esp + 8) == BASE + esp + 12
    && (forall k: nat :: k < i ==> PointerAt(page, esp, toks, strings, k))
    && (forall at: nat :: esp + 12 + 4 * i <= at < strings ==> page[at] == 0)
  }

  lemma SpliceSlice(p: seq<Byte>, ofs: nat, data: seq<Byte>, o: nat, n: nat)
    requires ofs + |data| <= |p| && o + n <= |p|
    ensures o + n <= ofs || ofs + |data| <= o ==> Splice(p, ofs, data)[o..o + n] == p[o..o + n]
    ensures o == ofs && n == |data| ==> Splice(p, ofs, data)[o..o + n] == data
  {
    hide Splice;
    var q := Splice(p, ofs, data);
    forall j | 0 <= j < |p| ensures q[j] == if ofs <= j < ofs + |data| then data[j - ofs] else p[j] {
      SpliceByte(p, ofs, data, j);
    }
  }

  lemma SpliceByte(p: seq<Byte>, ofs: nat, data: seq<Byte>, j: nat)
    requires ofs + |data| <= |p| && j < |p|
    ensures Splice(p, ofs, data)[j] == if ofs <= j < ofs + |data| then data[j - ofs] else p[j]
  {
  }

  lemma StoredWord(p: seq<Byte>, at: nat, v: nat)
    requires at + 4 <= |p| && v < WORD_LIMIT
    ensures Word(Splice(p, at, Encode32(v)), at) == v
  {
    SpliceSlice(p, at, Encode32(v), at, 4);
    WordRoundTrip(v, []);
    assert Encode32(v) + [] == Encode32(v);
  }

  lemma KeptPointer(p: seq<Byte>, ofs: nat, data: seq<Byte>, esp: nat, toks: seq<seq<Byte>>, argc: nat,
                    strings: nat, k: nat, i: nat)
    requires |p| == PGSIZE && Bounds(esp, toks, argc, strings) && k < i < |toks| && PointerAt(p, esp, toks, strings, k)
    requires (ofs == strings + Offset(toks, i) && ofs + |data| <= PGSIZE) || (ofs == esp + 12 + 4 * i && |data| == 4)
    ensures PointerAt(Splice(p, ofs, data), esp, toks, strings, k)
  {
    hide Splice, Offset;
    OffsetMono(toks, k, i);
    OffsetMono(toks, i, |toks|);
    SpliceSlice(p, ofs, data, esp + 12 + 4 * k, 4);
    SpliceSlice(p, ofs, data, strings + Offset(toks, k), |toks[k]| + 1);
  }

  /** One turn of the loop: the string, then the pointer to it. */
  lemma FillStep(p: seq<Byte>, esp: nat, toks: seq<seq<Byte>>, argc: nat, strings: nat, i: nat)
    requires Filled(p, esp, toks, argc, strings, i) && i < |toks|
    ensures var at := strings + Offset(toks, i);
            && at + |toks[i]| + 1 <= PGSIZE && BASE + at < WORD_LIMIT && esp + 12 + 4 * i + 4 <= PGSIZE
            && var p1 := Splice(p, at, toks[i] + [0]);
               Filled(Splice(p1, esp + 12 + 4 * i, Encode32(BASE + at)), esp, toks, argc, strings, i + 1)
  {
    hide Splice, Encode32, Word, Offset;
    OffsetMono(toks, i, |toks|);
    OffsetMono(toks, 0, i);
    var at := strings + Offset(toks, i);
    var slot := esp + 12 + 4 * i;
    var str := toks[i] + [0];
    var p1 := Splice(p, at, str);
    var ptr := Encode32(BASE + at);
    var p2 := Splice(p1, slot, ptr);
    forall k: nat | k < i ensures PointerAt(p2, esp, toks, strings, k) {
      KeptPointer(p, at, str, esp, toks, argc, strings, k, i);
      KeptPointer(p1, slot, ptr, esp, toks, argc, strings, k, i);
    }
    StoredWord(p1, slot, BASE + at);
    SpliceSlice(p, at, str, at, |str|);
    SpliceSlice(p1, slot, ptr, at, |str|);
    assert PointerAt(p2, esp, toks, strings, i);
    KeptWord(p, at, str, esp);
    KeptWord(p, at, str, esp + 4);
    KeptWord(p, at, str, esp + 8);
    KeptWord(p1, slot, ptr, esp);
    KeptWord(p1, slot, ptr, esp + 4);
    KeptWord(p1, slot, ptr, esp + 8);
    forall b: nat | esp + 12 + 4 * (i + 1) <= b < strings ensures p2[b] == 0 {
      KeptByte(p, at, str, b);
      KeptByte(p1, slot, ptr, b);
    }
  }

  lemma KeptWord(p: seq<Byte>, ofs: nat, data: seq<Byte>, at: nat)
    requires ofs + |data| <= |p| && at + 4 <= |p| && (at + 4 <= ofs || ofs + |data| <= at)
    ensures Word(Splice(p, ofs, data), at) == Word(p, at)
  {
    SpliceSlice(p, ofs, data, at, 4);
  }

  lemma KeptByte(p: seq<Byte>, ofs: nat, data: seq<Byte>, b: nat)
    requires ofs + |data| <= |p| && b < |p| && (b < ofs || ofs + |data| <= b)
    ensures Splice(p, ofs, data)[b] == p[b]
  {
    SpliceByte(p, ofs, data, b);
  }

  lemma FilledIsStack(p: seq<Byte>, esp: nat, toks: seq<seq<Byte>>, argc: nat, strings: nat)
    requires Filled(p, esp, toks, argc, strings, |toks|)
    ensures IsStack(p, esp, toks, argc, strings)
  {
    forall k: nat | |toks| <= k <= argc ensures Word(p, esp + 12 + 4 * k) == 0 {
      var at := esp + 12 + 4 * k;
      assert p[at] == 0 && p[at + 1] == 0 && p[at + 2] == 0 && p[at + 3] == 0;
    }
  }

  /** The counting loop of setup_stack(). */
  method CountArgs(cmd: seq<Byte>) returns (argc: nat, total: nat)
    ensures argc == Argc(cmd) && total == |cmd| + 1
  {
    argc, total := 1, 0;
    var prevCharWasSpace := false;
    assert cmd[0..] == cmd;
    while total < |cmd|
      invariant 0 <= total <= |cmd|
      invariant argc + SpaceStarts(cmd[total..], prevCharWasSpace) == Argc(cmd)
    {
      assert cmd[total..][1..] == cmd[total + 1..];
      if cmd[total] == SPACE && !prevCharWasSpace {
        prevCharWasSpace := true;
        argc := argc + 1;
      } else if cmd[total] != SPACE {
        prevCharWasSpace := false;
      }
      total := total + 1;
    }
    total := total + 1;
  }

  lemma {:induction false} WordLenIs(s: seq<Byte>, n: nat, delims: seq<Byte>)
    requires n <= |s| && (forall i :: 0 <= i < n ==> s[i] !in delims) && (n < |s| ==> s[n] in delims)
    ensures WordLen(s, delims) == n
  {
    if n > 0 {
      WordLenIs(s[1..], n - 1, delims);
    }
  }

  /** A NUL-terminated string in a buffer. */
  ghost predicate TokenAt(buf: seq<Byte>, at: nat, word: seq<Byte>) {
    at + |word| + 1 <= |buf| && buf[at..at + |word| + 1] == word + [0] && NoNul(word)
  }

  /** strtok_r() with the delimiters `delims`, on the string from position s to the NUL at
      `len`. */
  method StrTok(buf: array<Byte>, s: nat, delims: seq<Byte>, ghost len: nat)
      returns (token: Option<nat>, save: nat, ghost word: seq<Byte>)
    requires s <= len < buf.Length && buf[len] == 0 && forall k :: s <= k < len ==> buf[k] != 0
    modifies buf
    ensures s <= save <= len && (forall k :: save <= k <= len ==> buf[k] == old(buf[k]))
    ensures token.None? ==> Tokens(old(buf[s..len]), delims) == []
    ensures token.Some? ==>
              && TokenAt(buf[..], token.value, word)
              && Tokens(old(buf[s..len]), delims) == [word] + Tokens(buf[save..len], delims)
  {
    hide Skip, Tokens, WordLen, TokenAt;
    word := [];
    ghost var was := buf[..];
    var p := SkipDelims(buf, s, delims, len);
    if buf[p] == 0 {
      return None, p, word;
    }
    token := Some(p);
    var end := WordEnd(buf, p, delims, len);
    word := was[p..end];
    save := end;
    if buf[end] != 0 {
      buf[end] := 0;
      save := end + 1;
    }
    assert buf[..] == was[end := 0];
    TokenFound(was, s, p, end, len, delims);
  }

  /** The word from p to `end` is the first token, ended by a NUL; the rest starts behind the
      delimiter that the NUL replaced, or at the NUL that was there. */
  lemma TokenFound(was: seq<Byte>, s: nat, p: nat, end: nat, len: nat, delims: seq<Byte>)
    requires s <= p < end <= len < |was| && was[len] == 0 && forall k :: s <= k < len ==> was[k] != 0
    requires Skip(was[s..len], delims) == was[p..len]
    requires end - p == WordLen(was[p..len], delims) && (was[end] in delims || was[end] == 0)
    ensures TokenAt(was[end := 0], p, was[p..end])
    ensures var save := if was[end] != 0 then end + 1 else end;
            && was[end := 0][save..len] == was[save..len]
            && Tokens(was[s..len], delims) == [was[p..end]] + Tokens(was[save..len], delims)
  {
    hide Skip, Tokens, WordLen, TokenAt;
    var t := was[p..len];
    FirstToken(was[s..len], t, end - p, delims);
    assert t[..end - p] == was[p..end] && t[end - p..] == was[end..len];
    if was[end] != 0 {
      DelimFirst(was[end..len], delims);
      assert was[end..len][1..] == was[end + 1..len];
    }
    Terminated(was, p, end, was[p..end]);
  }

  /** A NUL behind a word makes it a string. */
  lemma Terminated(buf: seq<Byte>, p: nat, end: nat, word: seq<Byte>)
    requires p <= end < |buf| && word == buf[p..end] && forall k :: p <= k < end ==> buf[k] != 0
    ensures TokenAt(buf[end := 0], p, word)
  {
  }

  /** The first token is the word after the skipped delimiters. */
  lemma FirstToken(s: seq<Byte>, t: seq<Byte>, n: nat, delims: seq<Byte>)
    requires t == Skip(s, delims) && t != [] && n == WordLen(t, delims)
    ensures Tokens(s, delims) == [t[..n]] + Tokens(t[n..], delims)
  {
  }

  /** The first loop of strtok_r(): stops at the next word or at the end. */
  method SkipDelims(buf: array<Byte>, s: nat, delims: seq<Byte>, ghost len: nat) returns (p: nat)
    requires s <= len < buf.Length && buf[len] == 0 && forall k :: s <= k < len ==> buf[k] != 0
    ensures s <= p <= len && Skip(buf[s..len], delims) == buf[p..len]
    ensures buf[p] == 0 <==> p == len
    ensures buf[p] == 0 ==> Tokens(buf[s..len], delims) == []
  {
    hide Skip, Tokens;
    p := s;
    while buf[p] in delims && buf[p] != 0
      invariant s <= p <= len && Skip(buf[s..len], delims) == Skip(buf[p..len], delims)
      decreases len - p
    {
      SkipNext(buf[..], p, len, delims);
      p := p + 1;
    }
    SkipNext(buf[..], p, len, delims);
    if p == len {
      NoTokens(buf[s..len], delims);
    }
  }

  lemma SkipNext(buf: seq<Byte>, p: nat, len: nat, delims: seq<Byte>)
    requires p <= len <= |buf|
    ensures Skip(buf[p..len], delims) == if p < len && buf[p] in delims then Skip(buf[p + 1..len], delims)
            else buf[p..len]
  {
    assert p < len ==> buf[p..len][1..] == buf[p + 1..len];
  }

  lemma EmptyTokens(delims: seq<Byte>)
    ensures Tokens([], delims) == []
  {
  }

  lemma NoTokens(s: seq<Byte>, delims: seq<Byte>)
    requires Skip(s, delims) == []
    ensures Tokens(s, delims) == []
  {
  }

  /** The second loop: stops behind the word. */
  method WordEnd(buf: array<Byte>, s: nat, delims: seq<Byte>, ghost len: nat) returns (p: nat)
    requires s < len < buf.Length && buf[len] == 0 && buf[s] !in delims && forall k :: s <= k < len ==> buf[k] != 0
    ensures s < p <= len && p - s == WordLen(buf[s..len], delims) && (buf[p] in delims || buf[p] == 0)
  {
    hide WordLen;
    p := s;
    while !(buf[p] in delims || buf[p] == 0)
      invariant s <= p <= len
      invariant forall k :: s <= k < p ==> buf[k] !in delims
      decreases len - p
    {
      p := p + 1;
    }
    WordLenIs(buf[s..len], p - s, delims);
  }

  lemma DelimFirst(s: seq<Byte>, delims: seq<Byte>)
    requires s != [] && s[0] in delims
    ensures Tokens(s, delims) == Tokens(s[1..], delims)
  {
    assert Skip(s, delims) == Skip(s[1..], delims);
  }

  /** memcpy() into the page. */
  method Store(page: array<Byte>, at: nat, data: seq<Byte>)
    requires at + |data| <= page.Length
    modifies page
    ensures page[..] == Splice(old(page[..]), at, data)
  {
    forall j | 0 <= j < |data| {
      page[at + j] := data[j];
    }
  }

  /** The writes before the loop: alignment and the null pointer are zero already. */
  method StoreHead(page: array<Byte>, esp: nat, ghost toks: seq<seq<Byte>>, argc: nat, ghost strings: nat)
    requires page.Length == PGSIZE && Bounds(esp, toks, argc, strings) && forall k :: 0 <= k < PGSIZE ==> page[k] == 0
    modifies page
    ensures Filled(page[..], esp, toks, argc, strings, 0)
  {
    hide Splice, Encode32, Decode32, Offset;
    ghost var p := page[..];
    Store(page, esp + 8, Encode32(BASE + esp + 12));
    Store(page, esp + 4, Encode32(argc));
    ghost var p1 := Splice(p, esp + 8, Encode32(BASE + esp + 12));
    ghost var p2 := page[..];
    StoredWord(p, esp + 8, BASE + esp + 12);
    StoredWord(p1, esp + 4, argc);
    KeptWord(p1, esp + 4, Encode32(argc), esp + 8);
    KeptWord(p, esp + 8, Encode32(BASE + esp + 12), esp);
    KeptWord(p1, esp + 4, Encode32(argc), esp);
    ZeroWord(p, esp);
    forall b: nat | esp + 12 <= b < strings ensures p2[b] == 0 {
      KeptByte(p, esp + 8, Encode32(BASE + esp + 12), b);
      KeptByte(p1, esp + 4, Encode32(argc), b);
    }
  }

  lemma ZeroWord(p: seq<Byte>, at: nat)
    requires at + 4 <= |p| && forall k :: 0 <= k < |p| ==> p[k] == 0
    ensures Word(p, at) == 0
  {
  }

  /** How setup_stack() ends: with a stack; in the ASSERT of strlen(), for want of a token; or
      with a write below the page. */
  datatype Outcome = Ready(esp: nat) | NoToken | OutsidePage

  /** setup_stack() on a zeroed page: the program reads its command line back. */
  method SetupStack(cmd: seq<Byte>, page: array<Byte>, fnCopy: array<Byte>) returns (r: Outcome)
    requires NoNul(cmd) && page != fnCopy && page.Length == PGSIZE && fnCopy.Length == PGSIZE
    requires forall k :: 0 <= k < PGSIZE ==> page[k] == 0
    modifies page, fnCopy
    ensures r.OutsidePage? <==> ImageSize(|cmd|, Argc(cmd)) > PGSIZE
    ensures r.NoToken? <==> ImageSize(|cmd|, Argc(cmd)) <= PGSIZE && Tokens(cmd, SPACES) == []
    ensures r.Ready? ==>
              && r.esp == PGSIZE - ImageSize(|cmd|, Argc(cmd))
              && IsStack(page[..], r.esp, Tokens(cmd, SPACES), Argc(cmd), PGSIZE - |cmd| - 1)
              && ReadsBack(page[..], r.esp, cmd)
  {
    hide IsStack, Filled, NoNul, Tokens, Argc, ReadsBack, Offset;
    CopyCommand(cmd, fnCopy);
    var argc, total := CountArgs(cmd);
    // The lowest write is that of the return address.
    var top := total + (4 - total % 4) + 4 + 4 * argc;
    if PGSIZE < top + 12 {
      return OutsidePage;
    }
    var esp := PGSIZE - top - 12;
    ghost var toks := Tokens(cmd, SPACES);
    TokensFit(cmd, SPACES);
    ArgcExactIff(cmd);
    assert Bounds(esp, toks, argc, PGSIZE - total);
    StoreHead(page, esp, toks, argc, PGSIZE - total);
    var ok := StoreStrings(page, fnCopy, esp, argc, PGSIZE - total, |cmd|, toks);
    if !ok {
      return NoToken;
    }
    FilledIsStack(page[..], esp, toks, argc, PGSIZE - total);
    StackReadsBack(page[..], esp, cmd, PGSIZE - total);
    return Ready(esp);
  }

  /** The loop of setup_stack() over the tokens; false when there is none. */
  method StoreStrings(page: array<Byte>, fnCopy: array<Byte>, esp: nat, argc: nat, strings: nat, ghost len: nat,
                      ghost toks: seq<seq<Byte>>)
    returns (ok: bool)
    requires page != fnCopy && page.Length == PGSIZE && len < fnCopy.Length && fnCopy[len] == 0
    requires forall k :: 0 <= k < len ==> fnCopy[k] != 0
    requires toks == Tokens(fnCopy[0..len], SPACES) && Filled(page[..], esp, toks, argc, strings, 0)
    modifies page, fnCopy
    ensures ok == (toks != [])
    ensures ok ==> Filled(page[..], esp, toks, argc, strings, |toks|)
  {
    hide Splice, Encode32, Offset, Filled, NoNul, Tokens, Bounds, Word;
    var currArg: Option<nat>, ptr: nat, word: seq<Byte> := StrTok(fnCopy, 0, SPACES, len);
    if currArg.None? {
      return false;
    }
    ghost var i: nat := 0;
    var bottomForArgs, bottomForAddresses := strings, esp + 12;
    OffsetZero(toks);
    while currArg.Some?
      invariant ptr <= len < fnCopy.Length && fnCopy[len] == 0 && forall k :: ptr <= k < len ==> fnCopy[k] != 0
      invariant i <= |toks| && Filled(page[..], esp, toks, argc, strings, i)
      invariant bottomForArgs == strings + Offset(toks, i) && bottomForAddresses == esp + 12 + 4 * i
      invariant currArg.None? ==> i == |toks|
      invariant currArg.Some? ==>
                TokenAt(fnCopy[..], currArg.value, word) && toks[i..] == [word] + Tokens(fnCopy[ptr..len], SPACES)
      decreases |toks| - i
    {
      assert toks[i] == toks[i..][0] == word;
      FillStep(page[..], esp, toks, argc, strings, i);
      var n := StoreString(page, fnCopy, currArg.value, word, bottomForArgs, bottomForAddresses);
      OffsetStep(toks, i);
      bottomForArgs, bottomForAddresses := bottomForArgs + n + 1, bottomForAddresses + 4;
      i := i + 1;
      assert toks[i..] == toks[i - 1..][1..];
      currArg, ptr, word := StrTok(fnCopy, ptr, SPACES, len);
    }
    return true;
  }

  /** The body of that loop: the string, then the pointer to it. */
  method StoreString(page: array<Byte>, buf: array<Byte>, from: nat, ghost word: seq<Byte>, at: nat, slot: nat)
      returns (n: nat)
    requires page != buf && TokenAt(buf[..], from, word)
    requires at + |word| + 1 <= page.Length && slot + 4 <= page.Length && BASE + at < WORD_LIMIT
    modifies page
    ensures n == |word|
    ensures page[..] == Splice(Splice(old(page[..]), at, word + [0]), slot, Encode32(BASE + at))
  {
    hide Splice, Encode32, NoNul;
    n := StrLen(buf, from, word);
    assert buf[from..from + n + 1] == buf[..][from..from + n + 1];
    Store(page, at, buf[from..from + n + 1]);
    Store(page, slot, Encode32(BASE + at));
  }

  lemma OffsetZero(toks: seq<seq<Byte>>)
    ensures Offset(toks, 0) == 0
  {
  }

  lemma OffsetStep(toks: seq<seq<Byte>>, i: nat)
    requires i < |toks|
    ensures Offset(toks, i + 1) == Offset(toks, i) + |toks[i]| + 1
  {
  }

  /** strlen() of the string at `at`. */
  method StrLen(buf: array<Byte>, at: nat, ghost word: seq<Byte>) returns (n: nat)
    requires TokenAt(buf[..], at, word)
    ensures n == |word|
  {
    n := 0;
    ghost var w := word + [0];
    assert forall k :: 0 <= k < |w| ==> w[k] == buf[at + k];
    while buf[at + n] != 0
      invariant 0 <= n <= |word|
      decreases |word| - n
    {
      n := n + 1;
    }
  }

  /** strlcpy() of the command line. */
  method CopyCommand(cmd: seq<Byte>, buf: array<Byte>)
    requires buf.Length > 0 && NoNul(cmd)
    modifies buf
    ensures |cmd| < buf.Length ==> buf[0..|cmd|] == cmd && buf[|cmd|] == 0 && forall k :: 0 <= k < |cmd| ==> buf[k] != 0
  {
    var n := if |cmd| < buf.Length then |cmd| else buf.Length - 1;
    forall j | 0 <= j < n {
      buf[j] := cmd[j];
    }
    buf[n] := 0;
  }
}
