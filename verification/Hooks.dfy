/** Code hooking (src/hooks.c:83-123, 243-398): the methods that hand out executable memory, put
    jumps into code and move code away from where it was, and what runs after any number of them. */
module Hooks {
  import opened Arith
  import opened Bits
  import opened HookMachine
  import opened HookPages

  // ---- Jumps put into memory.

  function Nops(n: nat): (s: seq<byte>)
    ensures |s| == n
  {
    seq(n, _ => NOP)
  }

  /** Memory after a jump has been put at addr, if there is room for it. */
  function Injected(mem: seq<byte>, addr: nat, length: nat, target: nat, nops: bool): (m: seq<byte>)
    requires addr + length <= |mem|
    ensures |m| == |mem|
  {
    var j := JumpBytes(addr, target);
    if |j| > length then mem
    else
      var m := Patch(mem, addr, j);
      if nops then Patch(m, addr + |j|, Nops(length - |j|)) else m
  }

  /** Behind the jump at addr the code is nops. */
  ghost predicate Nopped(mem: seq<byte>, addr: nat, n: nat, target: nat) {
    var j := |JumpBytes(addr, target)|;
    j <= n && addr + n <= |mem| && forall k :: addr + j <= k < addr + n ==> mem[k] == NOP
  }

  lemma InjectedNops(mem: seq<byte>, addr: nat, n: nat, target: nat)
    requires addr + n <= |mem| && |JumpBytes(addr, target)| <= n
    ensures Nopped(Injected(mem, addr, n, target, true), addr, n, target)
  {
    hide JumpBytes;
  }

  /** The code that was at addr is at f, followed by a jump to what came after it. */
  ghost predicate Trampoline(mem0: seq<byte>, mem: seq<byte>, addr: nat, n: nat, f: nat) {
    && |mem0| == |mem| == MEMORY && addr + n <= MEMORY && f + n <= MEMORY
    && mem[f..f + n] == mem0[addr..addr + n] && JumpAt(mem, f + n, addr + n)
  }

  predicate In(k: nat, a: nat, n: nat) {
    a <= k < a + n
  }

  /** Nothing changed but the hooked code, the new buffer, and perhaps the link word of a new page. */
  ghost predicate OnlyThere(mem0: seq<byte>, mem: seq<byte>, addr: nat, n: nat, f: nat, size: nat, link: nat) {
    && |mem0| == |mem|
    && forall k :: 0 <= k < |mem| && !In(k, addr, n) && !In(k, f, size) && !In(k, link, LINK) ==> mem[k] == mem0[k]
  }

  lemma InjectedJump(mem: seq<byte>, addr: nat, length: nat, target: nat, nops: bool)
    requires addr + length <= |mem| && |JumpBytes(addr, target)| <= length
    ensures JumpAt(Injected(mem, addr, length, target, nops), addr, target)
  {
    hide Patch, JumpBytes;
    var j := JumpBytes(addr, target);
    var m := Patch(mem, addr, j);
    if nops {
      Untouched(m, addr + |j|, Nops(length - |j|), addr, |j|);
    }
  }

  lemma InjectedKeeps(mem: seq<byte>, addr: nat, length: nat, target: nat, nops: bool, b: nat, n: nat)
    requires addr + length <= |mem| && b + n <= |mem| && Apart(addr, length, b, n)
    ensures Injected(mem, addr, length, target, nops)[b..b + n] == mem[b..b + n]
  {
    hide Patch, JumpBytes;
    var j := JumpBytes(addr, target);
    if |j| <= length {
      Untouched(mem, addr, j, b, n);
      if nops {
        Untouched(Patch(mem, addr, j), addr + |j|, Nops(length - |j|), b, n);
      }
    }
  }

  lemma InjectedOnly(mem: seq<byte>, addr: nat, length: nat, target: nat, nops: bool, k: nat)
    requires addr + length <= |mem| && k < |mem| && !In(k, addr, length)
    ensures Injected(mem, addr, length, target, nops)[k] == mem[k]
  {
    hide JumpBytes;
  }

  // ---- Installed hooks.

  /** At addr, where code was, stands a jump to target; content stands in the buffer, with a jump
      behind it to what came after the code. */
  datatype Hook = Hook(addr: nat, code: seq<byte>, target: nat, buffer: nat, content: seq<byte>)

  ghost predicate Standing(mem: seq<byte>, h: Hook) {
    && Moved(mem, h.buffer, h.content, h.addr + |h.code|)
    && JumpAt(mem, h.addr, h.target) && |JumpBytes(h.addr, h.target)| <= |h.code|
    && h.addr + |h.code| < MEMORY && h.target < MEMORY
  }

  ghost predicate Holds(h: Hook, b: Buffer) {
    b.addr == h.buffer && |h.content| + 5 <= b.size
  }

  /** The hook stands, in a buffer that was handed out, and its code is in none of the pages. */
  ghost predicate Kept(mem: seq<byte>, h: Hook, s: Supply, buffers: seq<Buffer>, pagesize: nat) {
    && Standing(mem, h) && AllApart(h.addr, |h.code|, s.all, pagesize)
    && exists i :: 0 <= i < |buffers| && Holds(h, buffers[i])
  }

  ghost predicate AllKept(mem: seq<byte>, hooks: set<Hook>, s: Supply, buffers: seq<Buffer>, pagesize: nat) {
    forall h :: h in hooks ==> Kept(mem, h, s, buffers, pagesize)
  }

  /** The hooks whose code is not in [a, a + n). */
  function Clear(hooks: set<Hook>, a: nat, n: nat): set<Hook> {
    set h | h in hooks && (h.addr + |h.code| <= a || a + n <= h.addr)
  }

  /** Memory that a hook stands in, unchanged. */
  lemma StandingKept(mem0: seq<byte>, mem: seq<byte>, h: Hook)
    requires Standing(mem0, h) && |mem| == MEMORY
    requires mem[h.addr..h.addr + |h.code|] == mem0[h.addr..h.addr + |h.code|]
    requires mem[h.buffer..h.buffer + |h.content| + 5] == mem0[h.buffer..h.buffer + |h.content| + 5]
    ensures Standing(mem, h)
  {
    hide JumpBytes, JumpAt;
    var a, n := h.buffer, |h.content|;
    SameJump(mem0, mem, h.addr, h.target, |h.code|);
    FirstPart(mem0, a, n + 5, n);
    FirstPart(mem, a, n + 5, n);
    LastPart(mem0, a, n + 5, n);
    LastPart(mem, a, n + 5, n);
    JumpKept(mem0, mem, a + n, h.addr + |h.code|);
  }

  lemma LastPart(mem: seq<byte>, a: nat, n: nat, k: nat)
    requires a + n <= |mem| && k <= n
    ensures mem[a..a + n][k..] == mem[a + k..a + n]
  {
  }

  lemma OnlyThereKeeps(mem0: seq<byte>, mem: seq<byte>, addr: nat, n: nat, f: nat, size: nat, link: nat, a: nat, m: nat)
    requires OnlyThere(mem0, mem, addr, n, f, size, link) && a + m <= |mem|
    requires (n == 0 || Apart(addr, n, a, m)) && Apart(f, size, a, m) && Apart(link, LINK, a, m)
    ensures mem[a..a + m] == mem0[a..a + m]
  {
    forall k | a <= k < a + m
      ensures mem[k] == mem0[k]
    {
      assert !In(k, addr, n) && !In(k, f, size) && !In(k, link, LINK);
    }
  }

  /** A hook stands on after a change elsewhere, to code and to a buffer that is new. */
  lemma KeptAfter(mem0: seq<byte>, mem: seq<byte>, h: Hook, s0: Supply, s: Supply, buffers: seq<Buffer>, b: Buffer, pagesize: nat,
                  addr: nat, n: nat, link: nat)
    requires LINK < pagesize && LINK <= b.size && |mem| == MEMORY
    requires Kept(mem0, h, s0, buffers, pagesize) && BuffersFit(buffers, s0.all, pagesize) && BuffersFit(buffers + [b], s.all, pagesize)
    requires NewPages(s0, s, b, link, pagesize) && Apart(h.addr, |h.code|, link, LINK)
    requires AllApart(h.addr, |h.code|, s.all, pagesize)
    requires OnlyThere(mem0, mem, addr, n, b.addr, b.size, link)
    requires n == 0 || (Apart(h.addr, |h.code|, addr, n) && AllApart(addr, n, s.all, pagesize))
    ensures Kept(mem, h, s, buffers + [b], pagesize)
  {
    hide Standing, OnlyThere, BuffersFit;
    var i :| 0 <= i < |buffers| && Holds(h, buffers[i]);
    var more := buffers + [b];
    assert more[i] == buffers[i] && more[|buffers|] == b;
    OldBuffer(s0, s, buffers, b, pagesize, i, link, addr, n);
    NewBufferApart(h, s.all, more, pagesize);
    Bounds(mem0, h);
    OnlyThereKeeps(mem0, mem, addr, n, b.addr, b.size, link, h.addr, |h.code|);
    OnlyThereKeeps(mem0, mem, addr, n, b.addr, b.size, link, h.buffer, |h.content| + 5);
    StandingKept(mem0, mem, h);
  }

  /** The pages as they were, or a new one whose first word is written. */
  ghost predicate NewPages(s0: Supply, s: Supply, b: Buffer, link: nat, pagesize: nat) {
    || (s.all == s0.all && link == b.addr)
    || (s.all == [link] + s0.all && AllApart(link, pagesize, s0.all, pagesize))
  }

  lemma Bounds(mem: seq<byte>, h: Hook)
    requires Standing(mem, h)
    ensures |mem| == MEMORY && h.addr + |h.code| < MEMORY && h.buffer + |h.content| + 5 <= MEMORY
  {
    hide JumpAt, JumpBytes;
  }

  lemma OldBuffer(s0: Supply, s: Supply, buffers: seq<Buffer>, b: Buffer, pagesize: nat, i: nat, link: nat, addr: nat, n: nat)
    requires LINK < pagesize && LINK <= b.size && i < |buffers| && NewPages(s0, s, b, link, pagesize)
    requires BuffersFit(buffers, s0.all, pagesize) && BuffersFit(buffers + [b], s.all, pagesize)
    requires n == 0 || AllApart(addr, n, s.all, pagesize)
    ensures var o := buffers[i];
      Apart(b.addr, b.size, o.addr, o.size) && Apart(link, LINK, o.addr, o.size) && (n == 0 || Apart(addr, n, o.addr, o.size))
  {
    var more := buffers + [b];
    assert more[i] == buffers[i] && more[|buffers|] == b;
    assert Apart(more[i].addr, more[i].size, more[|buffers|].addr, more[|buffers|].size);
    assert Housed(buffers[i], s0.all, pagesize) && Housed(more[i], s.all, pagesize);
    HousedInside(buffers[i], s.all, pagesize, addr, n);
    if s.all != s0.all {
      HousedInside(buffers[i], s0.all, pagesize, link, pagesize);
    }
  }

  /** What is in no page is apart from what is in one. */
  lemma HousedInside(b: Buffer, pages: seq<nat>, pagesize: nat, a: nat, n: nat)
    requires Housed(b, pages, pagesize)
    ensures AllApart(a, n, pages, pagesize) ==> Apart(a, n, b.addr, b.size)
  {
    var i :| 0 <= i < |pages| && InPage(b, pages[i], pagesize);
  }

  lemma NewBufferApart(h: Hook, pages: seq<nat>, buffers: seq<Buffer>, pagesize: nat)
    requires BuffersFit(buffers, pages, pagesize) && AllApart(h.addr, |h.code|, pages, pagesize) && buffers != []
    ensures var b := buffers[|buffers| - 1]; Apart(h.addr, |h.code|, b.addr, b.size)
  {
    hide AllApart;
    HousedInside(buffers[|buffers| - 1], pages, pagesize, h.addr, |h.code|);
  }

  /** Writes into the code, if at all, and into a buffer. */
  lemma WrittenThere(mem1: seq<byte>, mem2: seq<byte>, mem3: seq<byte>, mem: seq<byte>, addr: nat, n: nat, target: nat,
                     f: nat, content: seq<byte>, next: nat, written: bool, nopsBack: bool, nops: bool)
    requires |mem1| == MEMORY && addr + n <= MEMORY && f + |content| + 5 <= MEMORY
    requires mem2 == Patch(mem1, f, content)
    requires mem3 == Injected(mem2, f + |content|, 5, next, nopsBack)
    requires mem == if written then Injected(mem3, addr, n, target, nops) else mem3
    ensures OnlyThere(mem1, mem, addr, if written then n else 0, f, |content| + 5, f)
  {
    hide Injected;
    forall k | 0 <= k < |mem| && !In(k, addr, if written then n else 0) && !In(k, f, |content| + 5)
      ensures mem[k] == mem1[k]
    {
      InjectedOnly(mem2, f + |content|, 5, next, nopsBack, k);
      if written {
        InjectedOnly(mem3, addr, n, target, nops, k);
      }
    }
  }

  lemma OnlyThereAfter(mem0: seq<byte>, mem1: seq<byte>, mem: seq<byte>, addr: nat, n: nat, f: nat, part: nat, size: nat, link: nat)
    requires |mem0| == |mem1| == MEMORY && forall k :: 0 <= k < MEMORY && !In(k, link, LINK) ==> mem1[k] == mem0[k]
    requires OnlyThere(mem1, mem, addr, n, f, part, f) && LINK <= part <= size
    ensures OnlyThere(mem0, mem, addr, n, f, size, link)
  {
  }

  // ---- Moved code.

  datatype Mode = DiscardOriginal | OriginalBefore | OriginalAfter

  /** A value for the new code, and where in it. */
  datatype Value = Value(offset: nat, value: nat)

  function Content(mode: Mode, code: seq<byte>, bytes: seq<byte>): seq<byte> {
    match mode
    case DiscardOriginal => bytes
    case OriginalBefore => code + bytes
    case OriginalAfter => bytes + code
  }

  lemma ContentLength(mode: Mode, code: seq<byte>, bytes: seq<byte>)
    ensures |Content(mode, code, bytes)| == |bytes| + if mode == DiscardOriginal then 0 else |code|
  {
  }

  /** Every value that is stored ends in the new code. The source checks only where it starts, and
      stops at the first that starts behind the new code. */
  predicate ValuesFit(limit: nat, patches: seq<Value>)
    decreases |patches|
  {
    patches == [] || patches[0].offset > limit || (patches[0].offset + 4 <= limit && ValuesFit(limit, patches[1..]))
  }

  /** A buffer after the values have been stored; the new code is at shift in it. */
  function StoredAt(region: seq<byte>, shift: nat, limit: nat, patches: seq<Value>): (r: seq<byte>)
    requires shift + limit + 4 <= |region|
    ensures |r| == |region|
    decreases |patches|
  {
    if patches == [] || patches[0].offset > limit then region
    else StoredAt(Patch(region, shift + patches[0].offset, LeBytes(patches[0].value, 4)), shift, limit, patches[1..])
  }

  /** The new code after the values have been stored, when they fit. */
  function Stored(bytes: seq<byte>, patches: seq<Value>): (r: seq<byte>)
    requires ValuesFit(|bytes|, patches)
    ensures |r| == |bytes|
    decreases |patches|
  {
    if patches == [] || patches[0].offset > |bytes| then bytes
    else Stored(Patch(bytes, patches[0].offset, LeBytes(patches[0].value, 4)), patches[1..])
  }

  lemma PatchInside(pre: seq<byte>, bytes: seq<byte>, post: seq<byte>, off: nat, v: seq<byte>)
    requires off + |v| <= |bytes|
    ensures Patch(pre + bytes + post, |pre| + off, v) == pre + Patch(bytes, off, v) + post
  {
    hide Patch;
    PatchRight(pre, bytes, off, v);
    PatchLeft(pre + bytes, post, |pre| + off, v);
  }

  lemma PatchRight(a: seq<byte>, c: seq<byte>, off: nat, v: seq<byte>)
    requires off + |v| <= |c|
    ensures a + Patch(c, off, v) == Patch(a + c, |a| + off, v)
  {
    var o := |a| + off;
    assert (a + c)[..o] == a + c[..off] && (a + c)[o + |v|..] == c[off + |v|..];
    assert a + (c[..off] + v + c[off + |v|..]) == a + c[..off] + v + c[off + |v|..];
  }

  lemma PatchLeft(c: seq<byte>, b: seq<byte>, off: nat, v: seq<byte>)
    requires off + |v| <= |c|
    ensures Patch(c, off, v) + b == Patch(c + b, off, v)
  {
    assert (c + b)[..off] == c[..off] && (c + b)[off + |v|..] == c[off + |v|..] + b;
    assert (c[..off] + v + c[off + |v|..]) + b == c[..off] + v + (c[off + |v|..] + b);
  }

  lemma {:induction false} StoredInside(pre: seq<byte>, bytes: seq<byte>, post: seq<byte>, patches: seq<Value>)
    requires ValuesFit(|bytes|, patches) && |post| >= 4
    ensures StoredAt(pre + bytes + post, |pre|, |bytes|, patches) == pre + Stored(bytes, patches) + post
    decreases |patches|
  {
    hide Patch, LeBytes;
    if patches != [] && patches[0].offset <= |bytes| {
      var v := LeBytes(patches[0].value, 4);
      PatchInside(pre, bytes, post, patches[0].offset, v);
      StoredInside(pre, Patch(bytes, patches[0].offset, v), post, patches[1..]);
    }
  }

  function With(patches: seq<Value>, values: seq<nat>): seq<Value>
    requires |values| == |patches|
  {
    seq(|patches|, i requires 0 <= i < |patches| => Value(patches[i].offset, values[i]))
  }

  /** What follows the new code in the buffer is as it was. */
  predicate Survives(region: seq<byte>, shift: nat, limit: nat, patches: seq<Value>)
    requires shift + limit + 4 <= |region|
  {
    StoredAt(region, shift, limit, patches)[shift + limit..] == region[shift + limit..]
  }

  /** What follows the new code, the jump back or the old code, survives whatever values are stored
      exactly if each of them also ends in the new code. */
  lemma ValuesStayInside(region: seq<byte>, shift: nat, limit: nat, patches: seq<Value>)
    requires shift + limit + 4 <= |region|
    ensures (forall values: seq<nat> :: |values| == |patches| ==> Survives(region, shift, limit, With(patches, values)))
      <==> ValuesFit(limit, patches)
  {
    hide Survives, ValuesFit, With;
    if ValuesFit(limit, patches) {
      forall values: seq<nat> | |values| == |patches|
        ensures Survives(region, shift, limit, With(patches, values))
      {
        SameFit(limit, patches, values);
        FitSurvives(region, shift, limit, With(patches, values));
      }
    } else {
      var values := SpoilingValues(region, shift, limit, patches);
    }
  }

  lemma FitSurvives(region: seq<byte>, shift: nat, limit: nat, patches: seq<Value>)
    requires shift + limit + 4 <= |region| && ValuesFit(limit, patches)
    ensures Survives(region, shift, limit, patches)
  {
    hide StoredAt, Stored, ValuesFit;
    var pre, bytes, post := region[..shift], region[shift..shift + limit], region[shift + limit..];
    assert pre + bytes + post == region;
    StoredInside(pre, bytes, post, patches);
  }

  lemma SpoilingValues(region: seq<byte>, shift: nat, limit: nat, patches: seq<Value>) returns (values: seq<nat>)
    requires shift + limit + 4 <= |region| && !ValuesFit(limit, patches)
    ensures |values| == |patches| && !Survives(region, shift, limit, With(patches, values))
  {
    hide StoredAt, ValuesFit, LeValue;
    var other: byte := if region[shift + limit] == 0 then 1 else 0;
    values := seq(|patches|, i => LeValue([other, other, other, other]));
    SameFit(limit, patches, values);
    SpoiltAt(region, shift, limit, With(patches, values), other);
    var r := StoredAt(region, shift, limit, With(patches, values));
    assert r[shift + limit..][0] == other && region[shift + limit..][0] != other;
  }

  lemma {:induction false} SameFit(limit: nat, patches: seq<Value>, values: seq<nat>)
    requires |values| == |patches|
    ensures ValuesFit(limit, With(patches, values)) == ValuesFit(limit, patches)
    decreases |patches|
  {
    if patches != [] {
      SameFit(limit, patches[1..], values[1..]);
      assert With(patches, values)[1..] == With(patches[1..], values[1..]);
    }
  }

  lemma {:induction false} LeBytesValue(bytes: seq<byte>)
    ensures LeBytes(LeValue(bytes), |bytes|) == bytes
  {
    if bytes != [] {
      LeBytesValue(bytes[1..]);
      assert LeBytes(LeValue(bytes), |bytes|) == [bytes[0]] + LeBytes(LeValue(bytes[1..]), |bytes| - 1);
    }
  }

  /** A value that starts in the new code and does not end in it covers the byte behind it. */
  lemma {:induction false} SpoiltAt(region: seq<byte>, shift: nat, limit: nat, patches: seq<Value>, other: byte)
    requires shift + limit + 4 <= |region| && forall i :: 0 <= i < |patches| ==> patches[i].value == LeValue([other, other, other, other])
    requires !ValuesFit(limit, patches) || region[shift + limit] == other
    ensures StoredAt(region, shift, limit, patches)[shift + limit] == other
    decreases |patches|
  {
    hide LeBytes, LeValue;
    if patches != [] && patches[0].offset <= limit {
      LeBytesValue([other, other, other, other]);
      SpoiltAt(Patch(region, shift + patches[0].offset, LeBytes(patches[0].value, 4)), shift, limit, patches[1..], other);
    }
  }

  /** Content in a buffer that jumps back behind the code, and a jump at the code. */
  ghost predicate Placed(mem0: seq<byte>, mem: seq<byte>, addr: nat, n: nat, target: nat, buffer: nat, content: seq<byte>, written: bool) {
    && Moved(mem, buffer, content, addr + n) && (written ==> JumpAt(mem, addr, target))
    && OnlyThere(mem0, mem, addr, if written then n else 0, buffer, |content| + 5, buffer)
  }

  lemma PlacedThere(mem1: seq<byte>, mem2: seq<byte>, mem3: seq<byte>, mem: seq<byte>, addr: nat, n: nat, target: nat, buffer: nat,
                    content: seq<byte>, writable: bool, nopsBack: bool, nops: bool)
    requires |mem1| == MEMORY && addr + n <= MEMORY && buffer + |content| + 5 <= MEMORY
    requires Apart(addr, n, buffer, |content| + 5)
    requires mem2 == Patch(mem1, buffer, content)
    requires mem3 == Injected(mem2, buffer + |content|, 5, addr + n, nopsBack)
    requires mem == if writable then Injected(mem3, addr, n, target, nops) else mem3
    ensures Placed(mem1, mem, addr, n, target, buffer, content, writable && |JumpBytes(addr, target)| <= n)
  {
    hide Patch, Injected, JumpAt, JumpBytes, OnlyThere;
    var b := buffer + |content|;
    var written := writable && |JumpBytes(addr, target)| <= n;
    if writable && !written {
      NotInjected(mem3, addr, n, target, nops);
    }
    WrittenThere(mem1, mem2, mem3, mem, addr, n, target, buffer, content, addr + n, written, nopsBack, nops);
    InjectedJump(mem2, b, 5, addr + n, nopsBack);
    InjectedKeeps(mem2, b, 5, addr + n, nopsBack, buffer, |content|);
    if written {
      InjectedKeeps(mem3, addr, n, target, nops, buffer, |content|);
      InjectedKeeps(mem3, addr, n, target, nops, b, 5);
      JumpKept(mem3, mem, b, addr + n);
      InjectedJump(mem3, addr, n, target, nops);
    }
  }

  lemma NotInjected(mem: seq<byte>, addr: nat, length: nat, target: nat, nops: bool)
    requires addr + length <= |mem| && |JumpBytes(addr, target)| > length
    ensures Injected(mem, addr, length, target, nops) == mem
  {
    hide JumpBytes;
  }

  // ---- Requests.

  /** Where the link word that a request writes is: in its page, or else nowhere but in its buffer. */
  function LinkPlace(s: Supply, r: Request, pagesize: nat, buffer: nat): nat {
    if Asks(s, r.size, pagesize) then r.grant else buffer
  }

  /** Memory after a request. */
  function Requested(mem: seq<byte>, s: Supply, r: Request, pagesize: nat): seq<byte>
    requires r.grant + LINK <= |mem|
  {
    if Asks(s, r.size, pagesize) && r.grant != 0 then Patch(mem, r.grant, LeBytes(Current(s), LINK)) else mem
  }

  /** What has been got when a request was met: a buffer and code that share nothing with each other or
      with a link word, and memory that has changed in a link word at most. */
  lemma Prepared(mem0: seq<byte>, mem: seq<byte>, s0: Supply, s: Supply, buffers: seq<Buffer>, pagesize: nat, r: Request,
                 addr: nat, n: nat)
    requires |mem0| == MEMORY && r.grant + LINK <= MEMORY && mem == Requested(mem0, s0, r, pagesize)
    requires s == After(s0, r, pagesize) && Layout(mem, s, buffers, pagesize) && buffers != []
    requires AllApart(addr, n, s0.all, pagesize) && (r.grant != 0 ==> Apart(addr, n, r.grant, pagesize)) && addr + n <= MEMORY
    requires Asks(s0, r.size, pagesize) ==> r.grant != 0
    ensures var b := buffers[|buffers| - 1];
      && b.addr + b.size <= MEMORY && SparesLinks(b.addr, b.size, s.all)
      && AllApart(addr, n, s.all, pagesize) && SparesLinks(addr, n, s.all) && Apart(addr, n, b.addr, b.size)
      && mem[addr..addr + n] == mem0[addr..addr + n]
      && forall k :: 0 <= k < MEMORY && !In(k, LinkPlace(s0, r, pagesize, b.addr), LINK) ==> mem[k] == mem0[k]
  {
    var b := buffers[|buffers| - 1];
    PreparedCode(mem0, mem, s0, r, pagesize, addr, n);
    StillApart(addr, n, r.grant, s0.all, s.all, pagesize);
    LayoutHoused(mem, s, buffers, pagesize, |buffers| - 1);
    HousedIn(mem, s, buffers, pagesize, |buffers| - 1);
    hide Layout, Requested, After, Asks;
    CodeSpared(addr, n, s.all, pagesize, b);
  }

  lemma HousedIn(mem: seq<byte>, s: Supply, buffers: seq<Buffer>, pagesize: nat, i: nat)
    requires Layout(mem, s, buffers, pagesize) && i < |buffers|
    ensures Housed(buffers[i], s.all, pagesize) && BuffersFit(buffers, s.all, pagesize) && LINK < pagesize && |mem| == MEMORY
  {
    hide Housed, BelowMark, Linked, PagesApart, InMemory;
  }

  lemma PreparedCode(mem0: seq<byte>, mem: seq<byte>, s0: Supply, r: Request, pagesize: nat, addr: nat, n: nat)
    requires |mem0| == MEMORY && r.grant + LINK <= MEMORY && mem == Requested(mem0, s0, r, pagesize) && LINK < pagesize
    requires (r.grant != 0 ==> Apart(addr, n, r.grant, pagesize)) && addr + n <= MEMORY
    ensures |mem| == MEMORY && mem[addr..addr + n] == mem0[addr..addr + n]
    ensures Asks(s0, r.size, pagesize) ==> forall k :: 0 <= k < MEMORY && !In(k, r.grant, LINK) ==> mem[k] == mem0[k]
    ensures !Asks(s0, r.size, pagesize) ==> mem == mem0
  {
    hide Asks, LeBytes;
    var bytes := LeBytes(Current(s0), LINK);
    if Asks(s0, r.size, pagesize) && r.grant != 0 {
      Untouched(mem0, r.grant, bytes, addr, n);
    }
  }

  lemma StillApart(addr: nat, n: nat, grant: nat, before: seq<nat>, all: seq<nat>, pagesize: nat)
    requires AllApart(addr, n, before, pagesize)
    requires all == before || (Apart(addr, n, grant, pagesize) && all == [grant] + before)
    ensures AllApart(addr, n, all, pagesize)
  {
    if all != before {
      assert forall i :: 0 < i < |all| ==> all[i] == before[i - 1];
    }
  }

  lemma CodeSpared(addr: nat, n: nat, all: seq<nat>, pagesize: nat, b: Buffer)
    requires LINK <= pagesize && AllApart(addr, n, all, pagesize) && Housed(b, all, pagesize)
    ensures SparesLinks(addr, n, all) && Apart(addr, n, b.addr, b.size)
  {
    var i :| 0 <= i < |all| && InPage(b, all[i], pagesize);
  }

  /** What the system may answer to a request for a page: nothing, or memory that is not in use. */
  ghost predicate Free(grant: nat, hooks: set<Hook>, s: Supply, pagesize: nat) {
    grant != 0 ==>
      && grant + pagesize <= MEMORY && AllApart(grant, pagesize, s.all, pagesize)
      && forall h :: h in hooks ==> Apart(h.addr, |h.code|, grant, pagesize)
  }

  /** Every hook whose code is not written to stands on. */
  lemma AllKeptAfter(mem0: seq<byte>, mem: seq<byte>, hooks: set<Hook>, s0: Supply, s: Supply, buffers: seq<Buffer>, b: Buffer,
                     pagesize: nat, r: Request, addr: nat, n: nat)
    requires AllKept(mem0, hooks, s0, buffers, pagesize) && Free(r.grant, hooks, s0, pagesize)
    requires s == After(s0, r, pagesize) && (Asks(s0, r.size, pagesize) ==> r.grant != 0) && LINK <= b.size && |mem| == MEMORY
    requires LINK < pagesize && BuffersFit(buffers, s0.all, pagesize) && BuffersFit(buffers + [b], s.all, pagesize)
    requires OnlyThere(mem0, mem, addr, n, b.addr, b.size, LinkPlace(s0, r, pagesize, b.addr))
    requires n != 0 ==> AllApart(addr, n, s.all, pagesize)
    ensures AllKept(mem, if n == 0 then hooks else Clear(hooks, addr, n), s, buffers + [b], pagesize)
  {
    hide Kept, OnlyThere, BuffersFit, Standing;
    forall h | h in (if n == 0 then hooks else Clear(hooks, addr, n))
      ensures Kept(mem, h, s, buffers + [b], pagesize)
    {
      CodeStaysOut(mem0, h, s0, s, buffers, b, pagesize, r);
      KeptAfter(mem0, mem, h, s0, s, buffers, b, pagesize, addr, n, LinkPlace(s0, r, pagesize, b.addr));
    }
  }

  lemma CodeStaysOut(mem: seq<byte>, h: Hook, s0: Supply, s: Supply, buffers: seq<Buffer>, b: Buffer, pagesize: nat, r: Request)
    requires Kept(mem, h, s0, buffers, pagesize) && s == After(s0, r, pagesize) && (Asks(s0, r.size, pagesize) ==> r.grant != 0)
    requires r.grant != 0 ==> AllApart(r.grant, pagesize, s0.all, pagesize) && Apart(h.addr, |h.code|, r.grant, pagesize)
    requires BuffersFit(buffers + [b], s.all, pagesize) && LINK <= b.size && LINK < pagesize
    ensures AllApart(h.addr, |h.code|, s.all, pagesize)
    ensures NewPages(s0, s, b, LinkPlace(s0, r, pagesize, b.addr), pagesize)
    ensures Apart(h.addr, |h.code|, LinkPlace(s0, r, pagesize, b.addr), LINK)
  {
    hide Standing, BuffersFit, AllApart, Asks;
    StillApart(h.addr, |h.code|, r.grant, s0.all, s.all, pagesize);
    NewBufferApart(h, s.all, buffers + [b], pagesize);
    assert (buffers + [b])[|buffers|] == b;
  }

  // ---- The methods.

  class HookSystem {
    const pagesize: nat
    var mem: seq<byte>
    var dynbuffer: nat
    var dynbufferUsed: nat
    ghost var requests: seq<Request>
    ghost var supply: Supply
    ghost var buffers: seq<Buffer>
    ghost var hooks: set<Hook>

    /** The requests so far, the pages and buffers they have left, and the fields that go with them. */
    ghost predicate Sound()
      reads this
    {
      && Layout(mem, supply, buffers, pagesize) && supply == Supplied(pagesize, requests)
      && dynbuffer == Current(supply) && dynbufferUsed == supply.used
    }

    /** Every hook stands. */
    ghost predicate Valid()
      reads this
    {
      Sound() && AllKept(mem, hooks, supply, buffers, pagesize)
    }

    constructor (pagesize: nat, mem: seq<byte>)
      requires LINK < pagesize && |mem| == MEMORY
      ensures Valid() && this.mem == mem && this.pagesize == pagesize && requests == [] && buffers == [] && hooks == {}
    {
      this.pagesize, this.mem := pagesize, mem;
      dynbuffer, dynbufferUsed := 0, 0;
      requests, supply, buffers, hooks := [], Supply([], [], 0), [], {};
      LayoutEmpty(mem, pagesize);
    }

    /** Code that lies in no page of the allocator, now or after the next request. */
    ghost predicate CodeApart(addr: nat, n: nat, grant: nat)
      reads this
    {
      AllApart(addr, n, supply.all, pagesize) && (grant != 0 ==> Apart(addr, n, grant, pagesize))
    }

    /** get_rwxbytes, for a request that fits a page. */
    method GetRwxBytes(size: nat, grant: nat) returns (addr: nat)
      requires Sound() && Free(grant, hooks, supply, pagesize) && LINK + size <= pagesize
      modifies this`mem, this`dynbuffer, this`dynbufferUsed, this`requests, this`supply, this`buffers
      ensures Sound() && grant + LINK <= MEMORY
      ensures requests == old(requests) + [Request(size, grant)] && supply == After(old(supply), Request(size, grant), pagesize)
      ensures addr == 0 <==> Asks(old(supply), size, pagesize) && grant == 0
      ensures buffers == if addr == 0 then old(buffers) else old(buffers) + [Buffer(addr, size)]
      ensures addr != 0 ==> addr + size == Current(supply) + supply.used
      ensures mem == Requested(old(mem), old(supply), Request(size, grant), pagesize)
    {
      hide Layout, Patch, LeBytes, Supplied, Free;
      Grantable(mem, hooks, supply, buffers, pagesize, grant);
      SuppliedMore(pagesize, requests, Request(size, grant));
      requests := requests + [Request(size, grant)];
      if dynbuffer == 0 || dynbufferUsed + size > pagesize {
        var previous := dynbuffer;
        dynbuffer := grant;
        if dynbuffer == 0 {
          LayoutRefused(mem, supply, buffers, pagesize);
          supply := supply.(pages := []);
          return 0;
        }
        LayoutPage(mem, supply, buffers, pagesize, grant);
        supply := Supply([grant] + supply.pages, [grant] + supply.all, LINK);
        mem := Patch(mem, dynbuffer, LeBytes(previous, LINK));
        dynbufferUsed := LINK;
      }
      LayoutBuffer(mem, supply, buffers, pagesize, size);
      addr := dynbuffer + dynbufferUsed;
      buffers := buffers + [Buffer(addr, size)];
      dynbufferUsed := dynbufferUsed + size;
      supply := supply.(used := dynbufferUsed);
    }

    /** dynbuffer_make_nonwritable: the pages in the order in which they are visited. It comes to every
        page ever granted unless one was refused after another had been granted. */
    method MakeNonWritable() returns (visited: seq<nat>)
      requires Sound()
      ensures visited == supply.pages
      ensures visited == Grants(pagesize, requests) <==> !RefusedLater(pagesize, requests)
    {
      WalkReachesAll(pagesize, requests);
      hide BuffersFit, BelowMark, PagesApart, Walked, Linked, RefusedLater, Supplied, Grants;
      WalkStarts(supply.pages, dynbuffer);
      visited := [];
      var buffer: nat := dynbuffer;
      while buffer != 0
        invariant Walked(supply.pages, visited, buffer)
        decreases |supply.pages| - |visited|
      {
        WalkOn(mem, supply.pages, pagesize, visited, buffer);
        visited := visited + [buffer];
        buffer := LeValue(mem[buffer..buffer + LINK]);
      }
      WalkEnds(supply.pages, pagesize, visited);
    }

    /** Bytes written where no link word is. */
    method Write(a: nat, bytes: seq<byte>)
      requires Sound() && a + |bytes| <= MEMORY && SparesLinks(a, |bytes|, supply.all)
      modifies this`mem
      ensures Sound() && mem == Patch(old(mem), a, bytes)
    {
      hide Patch, Layout, Supplied;
      LayoutWrite(mem, supply, buffers, pagesize, a, bytes);
      Sized(mem, supply, buffers, pagesize);
      mem := Patch(mem, a, bytes);
    }

    /** inject_jmp: a short jump when the target is near, a long one if there is room for it; the
        instructions after it become nops unless that memory cannot be made writable. */
    method InjectJmp(addr: nat, length: nat, target: nat, writable: bool, nops: bool)
      requires Sound() && target < MEMORY && addr + length <= MEMORY && SparesLinks(addr, length, supply.all)
      modifies this`mem
      ensures Sound() && mem == if writable then Injected(old(mem), addr, length, target, nops) else old(mem)
    {
      hide Patch, JumpBytes;
      if !writable {
        return;
      }
      var offset := Offset(target, addr + 2);
      var jumplen: nat;
      if offset < 128 && offset > -129 {
        if length < 2 {
          return;
        }
        jumplen := 2;
        ShortBytes(addr, target);
        SparesPart(addr, length, addr, 2, supply.all);
        Write(addr, [SHORT_JMP, offset % 0x100]);
      } else {
        if length < 5 {
          return;
        }
        jumplen := 5;
        LongBytes(addr, target);
        SparesPart(addr, length, addr, 5, supply.all);
        Write(addr, [LONG_JMP] + LeBytes((target - (addr + 5)) % MEMORY, 4));
      }
      if nops {
        SparesPart(addr, length, addr + jumplen, length - jumplen, supply.all);
        Write(addr + jumplen, Nops(length - jumplen));
      }
    }

    /** What hook_function and move_code_and_add_bytes do alike: they fill the buffer, put a jump behind
        the content to what comes after the code, and a jump to target where the code was. */
    method Place(buffer: nat, content: seq<byte>, addr: nat, n: nat, target: nat, writable: bool, nopsBack: bool, nops: bool)
      requires Sound() && addr + n < MEMORY && target < MEMORY && Apart(addr, n, buffer, |content| + 5)
      requires buffer + |content| + 5 <= MEMORY && SparesLinks(buffer, |content| + 5, supply.all) && SparesLinks(addr, n, supply.all)
      modifies this`mem
      ensures Sound() && Placed(old(mem), mem, addr, n, target, buffer, content, writable && |JumpBytes(addr, target)| <= n)
      ensures writable && nops && n >= 5 ==> Nopped(mem, addr, n, target)
    {
      hide Nopped, Patch, Layout, Supplied, Injected, JumpBytes, SparesLinks, Placed;
      SparesPart(buffer, |content| + 5, buffer, |content|, supply.all);
      SparesPart(buffer, |content| + 5, buffer + |content|, 5, supply.all);
      Sized(mem, supply, buffers, pagesize);
      ghost var mem1 := mem;
      Write(buffer, content);
      ghost var mem2 := mem;
      InjectJmp(buffer + |content|, 5, addr + n, true, nopsBack);
      ghost var mem3 := mem;
      InjectJmp(addr, n, target, writable, nops);
      PlacedThere(mem1, mem2, mem3, mem, addr, n, target, buffer, content, writable, nopsBack, nops);
      if writable && nops && n >= 5 {
        InjectedNops(mem3, addr, n, target);
      }
    }

    /** hook_function: the start of the function is moved to a buffer that jumps back behind it, and
        replaced by a jump to the hook. */
    method HookFunction(addr: nat, numbytes: nat, hook: nat, grant: nat, writable: bool, nopsBack: bool, nops: bool) returns (f: nat)
      requires Valid() && Free(grant, hooks, supply, pagesize) && LINK + numbytes + 5 <= pagesize
      requires addr + numbytes < MEMORY && hook < MEMORY && CodeApart(addr, numbytes, grant)
      modifies this
      ensures Valid()
      ensures numbytes < 5 ==> f == 0 && requests == old(requests)
      ensures numbytes >= 5 ==> requests == old(requests) + [Request(numbytes + 5, grant)]
      ensures numbytes >= 5 ==> (f == 0 <==> Asks(old(supply), numbytes + 5, pagesize) && grant == 0)
      ensures f == 0 ==> mem == old(mem) && buffers == old(buffers) && hooks == old(hooks)
      ensures f != 0 ==> buffers == old(buffers) + [Buffer(f, numbytes + 5)]
      ensures f != 0 ==> Trampoline(old(mem), mem, addr, numbytes, f)
      ensures f != 0 && writable && nops ==> Nopped(mem, addr, numbytes, hook)
      ensures f != 0 ==> var code := old(mem)[addr..addr + numbytes];
        hooks == HooksAfter(old(hooks), Hook(addr, code, hook, f, code), writable, writable)
      ensures f != 0 ==> OnlyThere(old(mem), mem, addr, if writable then numbytes else 0, f, numbytes + 5,
                                   LinkPlace(old(supply), Request(numbytes + 5, grant), pagesize, f))
    {
      hide Nopped, Patch, Layout, Supplied, Injected, JumpAt, JumpBytes, AllKept, Requested, After, Free, AllApart, SparesLinks, OnlyThere, Trampoline, Standing, Placed, LinkPlace, HooksAfter, Clear;
      ghost var mem0, s0, buffers0 := mem, supply, buffers;
      ghost var r := Request(numbytes + 5, grant);
      if numbytes < 5 {
        return 0;
      }
      f := GetRwxBytes(numbytes + 5, grant);
      Sized(mem, supply, buffers, pagesize);
      Sized(mem0, s0, buffers0, pagesize);
      if f == 0 {
        RefusedKeeps(mem, mem0, hooks, s0, supply, buffers, pagesize, r);
        return 0;
      }
      Prepared(mem0, mem, s0, supply, buffers, pagesize, r, addr, numbytes);
      ghost var mem1 := mem;
      ghost var code := mem0[addr..addr + numbytes];
      Place(f, mem[addr..addr + numbytes], addr, numbytes, hook, writable, nopsBack, nops);
      ghost var h := Hook(addr, code, hook, f, code);
      HookInstalled(mem0, mem1, mem, h, LinkPlace(s0, r, pagesize, f), writable);
      HooksStandOn(mem0, mem, hooks, s0, supply, buffers0, Buffer(f, numbytes + 5), pagesize, r, h, writable, writable);
      hooks := HooksAfter(hooks, h, writable, writable);
    }

    /** move_code_and_add_bytes, given that there is memory to be had: a buffer with the new code, and
        with the old code before or after it as asked, that jumps back; values are then stored into
        the new code. */
    method MoveCodeAndAddBytes(addr: nat, n: nat, bytes: seq<byte>, mode: Mode, patches: seq<Value>, grant: nat,
                               writable: bool, nopsBack: bool, nops: bool)
      returns (buffer: nat)
      requires Valid() && Free(grant, hooks, supply, pagesize) && LINK + n + |bytes| + 5 <= pagesize
      requires addr + n < MEMORY && CodeApart(addr, n, grant)
      requires Asks(supply, n + |bytes| + 5, pagesize) ==> grant != 0
      modifies this
      ensures Valid() && 0 < buffer && buffer + n + |bytes| + 5 <= MEMORY
      ensures requests == old(requests) + [Request(n + |bytes| + 5, grant)]
      ensures buffers == old(buffers) + [Buffer(buffer, n + |bytes| + 5)]
      ensures var written := writable && |JumpBytes(addr, buffer)| <= n;
        && (written ==> JumpAt(mem, addr, buffer))
        && OnlyThere(old(mem), mem, addr, if written then n else 0, buffer, n + |bytes| + 5,
                     LinkPlace(old(supply), Request(n + |bytes| + 5, grant), pagesize, buffer))
        && var code := old(mem)[addr..addr + n];
          if ValuesFit(|bytes|, patches) then
            && Moved(mem, buffer, Content(mode, code, Stored(bytes, patches)), addr + n)
            && hooks == HooksAfter(old(hooks), Hook(addr, code, buffer, buffer, Content(mode, code, Stored(bytes, patches))), written, written)
          else hooks == HooksAfter(old(hooks), Hook(addr, code, buffer, buffer, []), written, false)
    {
      hide Patch, Layout, Supplied, Injected, JumpAt, JumpBytes, AllKept, Requested, After, Free, AllApart, SparesLinks, OnlyThere, Moved,
        Standing, Content, Stored, StoredAt, ValuesFit, HooksAfter, Placed, LinkPlace, Clear, Kept, BuffersFit;
      ghost var mem0, s0, buffers0 := mem, supply, buffers;
      var size := n + |bytes| + 5;
      ghost var r := Request(size, grant);
      buffer := GetRwxBytes(size, grant);
      Sized(mem, supply, buffers, pagesize);
      Sized(mem0, s0, buffers0, pagesize);
      Prepared(mem0, mem, s0, supply, buffers, pagesize, r, addr, n);
      var code := mem[addr..addr + n];
      var content := Content(mode, code, bytes);
      ContentLength(mode, code, bytes);
      SparesPart(buffer, size, buffer, |content| + 5, supply.all);
      ghost var mem1 := mem;
      Place(buffer, content, addr, n, buffer, writable, nopsBack, nops);
      ghost var mem4 := mem;
      ghost var link, written := LinkPlace(s0, r, pagesize, buffer), writable && |JumpBytes(addr, buffer)| <= n;
      StoreValues(buffer, size, if mode == OriginalBefore then n else 0, |bytes|, patches);
      ghost var h := Hook(addr, code, buffer, buffer, if ValuesFit(|bytes|, patches) then Content(mode, code, Stored(bytes, patches)) else []);
      MoveStored(mem0, mem1, mem4, mem, h, bytes, mode, patches, size, link, written);
      HooksStandOn(mem0, mem, hooks, s0, supply, buffers0, Buffer(buffer, size), pagesize, r, h, written,
                   written && ValuesFit(|bytes|, patches));
      hooks := HooksAfter(hooks, h, written, written && ValuesFit(|bytes|, patches));
    }

    /** The variable arguments: values stored into the new code, until one starts behind it. */
    method StoreValues(buffer: nat, size: nat, shift: nat, limit: nat, patches: seq<Value>)
      requires Sound() && buffer + size <= MEMORY && SparesLinks(buffer, size, supply.all) && shift + limit + 4 <= size
      modifies this`mem
      ensures Sound() && |old(mem)| == MEMORY
      ensures mem == Patch(old(mem), buffer, StoredAt(old(mem)[buffer..buffer + size], shift, limit, patches))
    {
      hide Patch, Layout, Supplied, StoredAt, SparesLinks, LeBytes;
      Sized(mem, supply, buffers, pagesize);
      ghost var mem0, region := mem, mem[buffer..buffer + size];
      ghost var cur := region;
      var k := 0;
      assert patches[0..] == patches;
      PatchSame(mem0, buffer, size);
      while k < |patches| && patches[k].offset <= limit
        invariant 0 <= k <= |patches| && Sound() && |cur| == size && mem == Patch(mem0, buffer, cur)
        invariant StoredAt(cur, shift, limit, patches[k..]) == StoredAt(region, shift, limit, patches)
      {
        assert patches[k..][0] == patches[k] && patches[k..][1..] == patches[k + 1..];
        ghost var v := LeBytes(patches[k].value, 4);
        var o := shift + patches[k].offset;
        SparesPart(buffer, size, buffer + o, 4, supply.all);
        Write(buffer + o, LeBytes(patches[k].value, 4));
        StoredStep(cur, shift, limit, patches[k..]);
        PatchTwice(mem0, buffer, cur, o, v);
        cur := Patch(cur, o, v);
        k := k + 1;
      }
      StoredEnd(cur, shift, limit, patches[k..]);
    }
  }

  lemma Grantable(mem: seq<byte>, hooks: set<Hook>, s: Supply, buffers: seq<Buffer>, pagesize: nat, grant: nat)
    requires Layout(mem, s, buffers, pagesize) && Free(grant, hooks, s, pagesize)
    ensures LINK < pagesize && |mem| == MEMORY && grant + LINK <= MEMORY
    ensures grant != 0 ==> grant + pagesize <= MEMORY && AllApart(grant, pagesize, s.all, pagesize)
    ensures forall i :: 0 <= i < |s.pages| ==> s.pages[i] > 0
  {
    hide BuffersFit, BelowMark, PagesApart, Linked;
  }

  lemma Sized(mem: seq<byte>, s: Supply, buffers: seq<Buffer>, pagesize: nat)
    requires Layout(mem, s, buffers, pagesize)
    ensures |mem| == MEMORY && LINK < pagesize
  {
  }

  lemma RefusedKeeps(mem: seq<byte>, mem0: seq<byte>, hooks: set<Hook>, s0: Supply, s: Supply, buffers: seq<Buffer>, pagesize: nat, r: Request)
    requires r.grant == 0 && |mem0| == MEMORY && mem == Requested(mem0, s0, r, pagesize) && s == After(s0, r, pagesize) && Asks(s0, r.size, pagesize)
    requires AllKept(mem0, hooks, s0, buffers, pagesize)
    ensures mem == mem0 && AllKept(mem, hooks, s, buffers, pagesize)
  {
    hide Standing, AllApart, Holds;
  }

  /** The hooks that stand after code has been written to, and after one more has been put there. */
  lemma HooksStandOn(mem0: seq<byte>, mem: seq<byte>, hooks: set<Hook>, s0: Supply, s: Supply, buffers: seq<Buffer>, b: Buffer, pagesize: nat,
                     r: Request, h: Hook, written: bool, added: bool)
    requires AllKept(mem0, hooks, s0, buffers, pagesize) && Free(r.grant, hooks, s0, pagesize)
    requires s == After(s0, r, pagesize) && (Asks(s0, r.size, pagesize) ==> r.grant != 0) && LINK <= b.size
    requires Layout(mem0, s0, buffers, pagesize) && Layout(mem, s, buffers + [b], pagesize)
    requires OnlyThere(mem0, mem, h.addr, if written then |h.code| else 0, b.addr, b.size, LinkPlace(s0, r, pagesize, b.addr))
    requires AllApart(h.addr, |h.code|, s.all, pagesize) && (written ==> h.code != [])
    requires added ==> Holds(h, b) && written && Standing(mem, h)
    ensures AllKept(mem, HooksAfter(hooks, h, written, added), s, buffers + [b], pagesize)
  {
    hide Standing, AllApart, OnlyThere, Free, After, Asks, LinkPlace, Clear, AllKept, Holds;
    LayoutParts(mem0, s0, buffers, pagesize);
    LayoutParts(mem, s, buffers + [b], pagesize);
    hide Layout;
    AllKeptAfter(mem0, mem, hooks, s0, s, buffers, b, pagesize, r, h.addr, if written then |h.code| else 0);
    if added {
      OneMore(mem, Clear(hooks, h.addr, |h.code|), s, buffers + [b], pagesize, h);
    }
  }

  /** Hooks whose code is written to are given up; h is added if it stands. */
  function HooksAfter(hooks: set<Hook>, h: Hook, written: bool, added: bool): set<Hook> {
    var kept := if written then Clear(hooks, h.addr, |h.code|) else hooks;
    if added then kept + {h} else kept
  }

  lemma LayoutParts(mem: seq<byte>, s: Supply, buffers: seq<Buffer>, pagesize: nat)
    requires Layout(mem, s, buffers, pagesize)
    ensures BuffersFit(buffers, s.all, pagesize) && LINK < pagesize && |mem| == MEMORY
  {
    hide BuffersFit, BelowMark, Linked, PagesApart, InMemory;
  }

  lemma OneMore(mem: seq<byte>, hooks: set<Hook>, s: Supply, buffers: seq<Buffer>, pagesize: nat, h: Hook)
    requires AllKept(mem, hooks, s, buffers, pagesize) && Standing(mem, h) && AllApart(h.addr, |h.code|, s.all, pagesize)
    requires buffers != [] && Holds(h, buffers[|buffers| - 1])
    ensures AllKept(mem, hooks + {h}, s, buffers, pagesize)
  {
    hide Standing, AllApart;
  }

  lemma PatchSame(mem: seq<byte>, a: nat, n: nat)
    requires a + n <= |mem|
    ensures Patch(mem, a, mem[a..a + n]) == mem
  {
  }

  lemma PatchTwice(mem: seq<byte>, a: nat, region: seq<byte>, o: nat, v: seq<byte>)
    requires a + |region| <= |mem| && o + |v| <= |region|
    ensures Patch(Patch(mem, a, region), a + o, v) == Patch(mem, a, Patch(region, o, v))
  {
    RegionPatched(Patch(mem, a, region), a, |region|, o, v);
    var m, w := Patch(Patch(mem, a, region), a + o, v), Patch(mem, a, Patch(region, o, v));
    assert m[a..a + |region|] == w[a..a + |region|];
    forall k | 0 <= k < |mem|
      ensures m[k] == w[k]
    {
      assert a <= k < a + |region| ==> m[k] == m[a..a + |region|][k - a] && w[k] == w[a..a + |region|][k - a];
    }
  }

  lemma RegionPatched(mem: seq<byte>, a: nat, n: nat, o: nat, v: seq<byte>)
    requires a + n <= |mem| && o + |v| <= n
    ensures Patch(mem, a + o, v)[a..a + n] == Patch(mem[a..a + n], o, v)
  {
  }

  lemma StoredStep(region: seq<byte>, shift: nat, limit: nat, patches: seq<Value>)
    requires shift + limit + 4 <= |region| && patches != [] && patches[0].offset <= limit
    ensures StoredAt(region, shift, limit, patches) ==
      StoredAt(Patch(region, shift + patches[0].offset, LeBytes(patches[0].value, 4)), shift, limit, patches[1..])
  {
    hide Patch, LeBytes;
  }

  lemma StoredEnd(region: seq<byte>, shift: nat, limit: nat, patches: seq<Value>)
    requires shift + limit + 4 <= |region| && (patches == [] || patches[0].offset > limit)
    ensures StoredAt(region, shift, limit, patches) == region
  {
  }

  lemma HookInstalled(mem0: seq<byte>, mem1: seq<byte>, mem: seq<byte>, h: Hook, link: nat, writable: bool)
    requires |mem0| == |mem1| == MEMORY && h.addr + |h.code| < MEMORY && h.target < MEMORY && h.buffer + |h.code| + 5 <= MEMORY
    requires h.content == h.code == mem0[h.addr..h.addr + |h.code|] && |h.code| >= 5
    requires forall k :: 0 <= k < MEMORY && !In(k, link, LINK) ==> mem1[k] == mem0[k]
    requires Placed(mem1, mem, h.addr, |h.code|, h.target, h.buffer, h.code, writable && |JumpBytes(h.addr, h.target)| <= |h.code|)
    ensures Trampoline(mem0, mem, h.addr, |h.code|, h.buffer)
    ensures writable ==> Standing(mem, h)
    ensures OnlyThere(mem0, mem, h.addr, if writable then |h.code| else 0, h.buffer, |h.code| + 5, link)
  {
    hide JumpAt, OnlyThere;
    OnlyThereAfter(mem0, mem1, mem, h.addr, if writable then |h.code| else 0, h.buffer, |h.code| + 5, |h.code| + 5, link);
  }

  /** The buffer after the values have been stored. */
  lemma MoveStored(mem0: seq<byte>, mem1: seq<byte>, mem4: seq<byte>, mem: seq<byte>, h: Hook, bytes: seq<byte>, mode: Mode, patches: seq<Value>,
                   size: nat, link: nat, written: bool)
    requires |mem0| == |mem1| == |mem4| == MEMORY && size == |h.code| + |bytes| + 5 && h.buffer + size <= MEMORY
    requires forall k :: 0 <= k < MEMORY && !In(k, link, LINK) ==> mem1[k] == mem0[k]
    requires Placed(mem1, mem4, h.addr, |h.code|, h.buffer, h.buffer, Content(mode, h.code, bytes), written)
    requires mem == Patch(mem4, h.buffer, StoredAt(mem4[h.buffer..h.buffer + size], if mode == OriginalBefore then |h.code| else 0, |bytes|, patches))
    requires h.addr + |h.code| < MEMORY && h.target == h.buffer && Apart(h.addr, |h.code|, h.buffer, size)
    requires written ==> |JumpBytes(h.addr, h.buffer)| <= |h.code|
    requires ValuesFit(|bytes|, patches) ==> h.content == Content(mode, h.code, Stored(bytes, patches))
    ensures OnlyThere(mem0, mem, h.addr, if written then |h.code| else 0, h.buffer, size, link)
    ensures written ==> JumpAt(mem, h.addr, h.buffer) && h.code != []
    ensures ValuesFit(|bytes|, patches) ==> Moved(mem, h.buffer, h.content, h.addr + |h.code|) && |h.content| + 5 <= size
    ensures ValuesFit(|bytes|, patches) && written ==> Standing(mem, h)
  {
    hide Patch, JumpAt, JumpBytes, OnlyThere, Content, Stored, StoredAt, ValuesFit, Moved;
    var region := StoredAt(mem4[h.buffer..h.buffer + size], if mode == OriginalBefore then |h.code| else 0, |bytes|, patches);
    ContentLength(mode, h.code, bytes);
    OnlyThereAfter(mem0, mem1, mem4, h.addr, if written then |h.code| else 0, h.buffer, |Content(mode, h.code, bytes)| + 5, size, link);
    OnlyTherePatched(mem0, mem4, h.addr, if written then |h.code| else 0, h.buffer, region, link);
    Untouched(mem4, h.buffer, region, h.addr, |h.code|);
    SameJump(mem4, mem, h.addr, h.buffer, |h.code|);
    if ValuesFit(|bytes|, patches) {
      MovedStored(mem4, mem, h.buffer, size, mode, h.code, bytes, patches, h.addr + |h.code|);
    }
  }

  lemma OnlyTherePatched(mem0: seq<byte>, mem: seq<byte>, addr: nat, n: nat, f: nat, region: seq<byte>, link: nat)
    requires OnlyThere(mem0, mem, addr, n, f, |region|, link) && f + |region| <= |mem|
    ensures OnlyThere(mem0, Patch(mem, f, region), addr, n, f, |region|, link)
  {
  }

  /** Values stored inside the new code, seen from the buffer. */
  lemma MovedStored(mem0: seq<byte>, mem: seq<byte>, buffer: nat, size: nat, mode: Mode, code: seq<byte>, bytes: seq<byte>,
                    patches: seq<Value>, next: nat)
    requires ValuesFit(|bytes|, patches) && buffer + size <= |mem0| && size == |code| + |bytes| + 5
    requires Moved(mem0, buffer, Content(mode, code, bytes), next)
    requires mem == Patch(mem0, buffer, StoredAt(mem0[buffer..buffer + size], if mode == OriginalBefore then |code| else 0, |bytes|, patches))
    ensures |Content(mode, code, Stored(bytes, patches))| + 5 <= size
    ensures Moved(mem, buffer, Content(mode, code, Stored(bytes, patches)), next)
  {
    hide Patch, JumpAt, JumpBytes, StoredAt, Stored, ValuesFit, Content, LeBytes;
    var content, stored := Content(mode, code, bytes), Content(mode, code, Stored(bytes, patches));
    ContentLength(mode, code, bytes);
    ContentLength(mode, code, Stored(bytes, patches));
    var region := mem0[buffer..buffer + size];
    var rest := region[|content|..];
    FirstPart(mem0, buffer, size, |content|);
    ContentStored(mode, code, bytes, patches, rest);
    assert region == content + rest;
    assert mem[buffer..buffer + size] == stored + rest;
    Regions(mem0, buffer, content, rest);
    Regions(mem, buffer, stored, rest);
    FirstPart(mem0, buffer + |content|, |rest|, 5);
    FirstPart(mem, buffer + |content|, |rest|, 5);
    JumpKept(mem0, mem, buffer + |content|, next);
  }

  lemma Regions(mem: seq<byte>, a: nat, content: seq<byte>, rest: seq<byte>)
    requires a + |content| + |rest| <= |mem| && mem[a..a + |content| + |rest|] == content + rest
    ensures mem[a..a + |content|] == content
    ensures mem[a + |content|..a + |content| + |rest|] == rest
  {
    FirstPart(mem, a, |content| + |rest|, |content|);
    LastPart(mem, a, |content| + |rest|, |content|);
    assert (content + rest)[..|content|] == content && (content + rest)[|content|..] == rest;
  }

  lemma ContentStored(mode: Mode, code: seq<byte>, bytes: seq<byte>, patches: seq<Value>, rest: seq<byte>)
    requires ValuesFit(|bytes|, patches) && |rest| >= 5
    ensures var shift := if mode == OriginalBefore then |code| else 0;
      var region := Content(mode, code, bytes) + rest;
      && shift + |bytes| + 4 <= |region|
      && StoredAt(region, shift, |bytes|, patches) == Content(mode, code, Stored(bytes, patches)) + rest
  {
    hide StoredAt, Stored, ValuesFit;
    var pre, post := if mode == OriginalBefore then code else [], (if mode == OriginalAfter then code else []) + rest;
    var x := Stored(bytes, patches);
    StoredInside(pre, bytes, post, patches);
    Cat(mode, code, bytes, rest);
    Cat(mode, code, x, rest);
  }

  lemma Cat(mode: Mode, code: seq<byte>, x: seq<byte>, rest: seq<byte>)
    ensures Content(mode, code, x) + rest ==
      (if mode == OriginalBefore then code else []) + x + ((if mode == OriginalAfter then code else []) + rest)
  {
    if mode == OriginalBefore {
      assert code + x + ([] + rest) == (code + x) + rest;
    } else if mode == OriginalAfter {
      assert [] + x + (code + rest) == (x + code) + rest;
    } else {
      assert [] + x + ([] + rest) == x + rest;
    }
  }

  // ---- What runs.

  /** The hooked function runs the hook; the returned buffer runs the original start and goes on
      behind it, as the function did before it was hooked. */
  lemma HookRuns<S>(isa: Isa<S>, mem0: seq<byte>, mem: seq<byte>, addr: nat, n: nat, hook: nat, f: nat, s: S)
    requires Trampoline(mem0, mem, addr, n, f) && JumpAt(mem, addr, hook)
    requires addr + n < MEMORY && f + n + 5 <= MEMORY && hook < MEMORY && Straight(isa, mem0[addr..addr + n])
    ensures Run(isa, mem, 1, addr, s) == (hook, s)
    ensures var code := mem0[addr..addr + n];
      var k := Instructions(isa, code);
      && Run(isa, mem, k + 1, f, s) == (addr + n, Effect(isa, code, s))
      && Run(isa, mem0, k, addr, s) == (addr + n, Effect(isa, code, s))
  {
    hide Straight, JumpBytes, Step, Run, Effect;
    var code := mem0[addr..addr + n];
    JumpLands(isa, mem, addr, hook, s);
    StraightRuns(isa, mem0, addr, code, s);
    MovedRuns(isa, mem, f, code, addr + n, s);
  }

  /** After any number of hook_function and move_code_and_add_bytes calls, every hook whose code was
      not written to again still takes the machine to its target, and its buffer still runs its
      content and goes on behind the code. */
  lemma EveryHookRuns<S>(isa: Isa<S>, sys: HookSystem, h: Hook, s: S)
    requires sys.Valid() && h in sys.hooks && Straight(isa, h.content)
    ensures |sys.mem| == MEMORY && h.addr < MEMORY && h.buffer < MEMORY
    ensures Run(isa, sys.mem, 1, h.addr, s) == (h.target, s)
    ensures Run(isa, sys.mem, Instructions(isa, h.content) + 1, h.buffer, s) == (h.addr + |h.code|, Effect(isa, h.content, s))
  {
    hide Straight, JumpBytes, Step, Run, Effect, Instructions, Layout, Supplied, AllApart, Holds, JumpAt;
    assert Kept(sys.mem, h, sys.supply, sys.buffers, sys.pagesize);
    Bounds(sys.mem, h);
    ItsJump(sys.mem, h);
    MovedRuns(isa, sys.mem, h.buffer, h.content, h.addr + |h.code|, s);
    JumpLands(isa, sys.mem, h.addr, h.target, s);
  }

  lemma ItsJump(mem: seq<byte>, h: Hook)
    requires Standing(mem, h)
    ensures h.addr + |JumpBytes(h.addr, h.target)| <= |mem| == MEMORY && h.target < MEMORY
    ensures mem[h.addr..h.addr + |JumpBytes(h.addr, h.target)|] == JumpBytes(h.addr, h.target)
    ensures Moved(mem, h.buffer, h.content, h.addr + |h.code|) && h.addr + |h.code| < MEMORY
  {
    hide JumpBytes, JumpAt;
    assert JumpAt(mem, h.addr, h.target);
    HereIs(mem, h.addr, h.target);
  }

  lemma HereIs(mem: seq<byte>, a: nat, target: nat)
    requires JumpAt(mem, a, target)
    ensures a + |JumpBytes(a, target)| <= |mem| && mem[a..a + |JumpBytes(a, target)|] == JumpBytes(a, target)
  {
    hide JumpBytes;
  }

  function Both<S>(isa: Isa<S>, mode: Mode, code: seq<byte>, bytes: seq<byte>, s: S): S
    requires Straight(isa, code) && Straight(isa, bytes)
  {
    match mode
    case DiscardOriginal => Effect(isa, bytes, s)
    case OriginalBefore => Effect(isa, bytes, Effect(isa, code, s))
    case OriginalAfter => Effect(isa, code, Effect(isa, bytes, s))
  }

  lemma BothRun<S>(isa: Isa<S>, mode: Mode, code: seq<byte>, bytes: seq<byte>, s: S)
    requires Straight(isa, code) && Straight(isa, bytes)
    ensures Straight(isa, Content(mode, code, bytes)) && Effect(isa, Content(mode, code, bytes), s) == Both(isa, mode, code, bytes, s)
  {
    hide Straight, Effect;
    if mode == OriginalBefore {
      StraightConcat(isa, code, bytes, s);
    } else if mode == OriginalAfter {
      StraightConcat(isa, bytes, code, s);
    }
  }

  /** Patched code runs the new code, and the old code before it, after it or not at all, as the mode
      says, and then goes on behind the old place. */
  lemma MoveRuns<S>(isa: Isa<S>, mem: seq<byte>, addr: nat, n: nat, buffer: nat, mode: Mode, code: seq<byte>, bytes: seq<byte>, s: S)
    requires Moved(mem, buffer, Content(mode, code, bytes), addr + n) && JumpAt(mem, addr, buffer)
    requires addr + n < MEMORY && buffer < MEMORY && Straight(isa, code) && Straight(isa, bytes)
    ensures Straight(isa, Content(mode, code, bytes))
    ensures Run(isa, mem, Instructions(isa, Content(mode, code, bytes)) + 2, addr, s) == (addr + n, Both(isa, mode, code, bytes, s))
  {
    hide Straight, JumpBytes, JumpAt, Step, Run, Effect, Instructions, Both, Content;
    BothRun(isa, mode, code, bytes, s);
    JumpHere(isa, mem, addr, buffer, s);
    var content := Content(mode, code, bytes);
    MovedRuns(isa, mem, buffer, content, addr + n, s);
    RunSum(isa, mem, 1, Instructions(isa, content) + 1, addr, s);
  }

  lemma JumpHere<S>(isa: Isa<S>, mem: seq<byte>, addr: nat, target: nat, s: S)
    requires |mem| == MEMORY && addr < MEMORY && target < MEMORY && JumpAt(mem, addr, target)
    ensures Run(isa, mem, 1, addr, s) == (target, s)
  {
    hide JumpBytes, Run, Step;
    JumpLands(isa, mem, addr, target, s);
  }

  /** The shortest run after which a page is out of reach: one page is granted and filled, the next
      request is refused, and the walk visits nothing. */
  method ForgottenPage(pagesize: nat, mem: seq<byte>, page: nat) returns (sys: HookSystem, visited: seq<nat>)
    requires LINK < pagesize && |mem| == MEMORY && 0 < page && page + pagesize <= MEMORY
    ensures sys.Sound() && sys.supply.all == [page] && visited == []
  {
    sys := new HookSystem(pagesize, mem);
    var first := sys.GetRwxBytes(pagesize - LINK, page);
    var second := sys.GetRwxBytes(1, 0);
    visited := sys.MakeNonWritable();
  }
}
