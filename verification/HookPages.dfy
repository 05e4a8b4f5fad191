/** The allocator of executable buffers (src/hooks.c:83-123): pages linked through their first word,
    buffers handed out from the newest one, and what a list of requests leaves behind. */
module HookPages {
  import opened Arith
  import opened Bits
  import opened HookMachine

  datatype Buffer = Buffer(addr: nat, size: nat)

  ghost predicate InPage(b: Buffer, page: nat, pagesize: nat) {
    page + LINK <= b.addr && b.addr + b.size <= page + pagesize
  }

  ghost predicate PagesApart(pages: seq<nat>, pagesize: nat) {
    forall i, j :: 0 <= i < j < |pages| ==> Apart(pages[i], pagesize, pages[j], pagesize)
  }

  ghost predicate InMemory(pages: seq<nat>, pagesize: nat) {
    forall i :: 0 <= i < |pages| ==> 0 < pages[i] && pages[i] + pagesize <= MEMORY
  }

  /** The link word of every page holds the page that was current before it, and the first page none. */
  ghost predicate Linked(mem: seq<byte>, pages: seq<nat>, pagesize: nat)
    requires |mem| == MEMORY && InMemory(pages, pagesize) && pagesize >= LINK
  {
    forall i :: 0 <= i < |pages| ==> LeValue(mem[pages[i]..pages[i] + LINK]) == Next(pages, i)
  }

  ghost predicate Housed(b: Buffer, pages: seq<nat>, pagesize: nat) {
    exists i :: 0 <= i < |pages| && InPage(b, pages[i], pagesize)
  }

  ghost predicate BuffersFit(buffers: seq<Buffer>, pages: seq<nat>, pagesize: nat) {
    && (forall i :: 0 <= i < |buffers| ==> Housed(buffers[i], pages, pagesize))
    && forall i, j :: 0 <= i < j < |buffers| ==> Apart(buffers[i].addr, buffers[i].size, buffers[j].addr, buffers[j].size)
  }

  /** [a, a + n) is in none of the pages. */
  ghost predicate AllApart(a: nat, n: nat, pages: seq<nat>, pagesize: nat) {
    forall i :: 0 <= i < |pages| ==> Apart(a, n, pages[i], pagesize)
  }

  /** Everything handed out from the current page lies below its used mark. */
  ghost predicate BelowMark(buffers: seq<Buffer>, page: nat, pagesize: nat, used: nat) {
    forall i :: 0 <= i < |buffers| ==>
      Apart(buffers[i].addr, buffers[i].size, page, pagesize) || buffers[i].addr + buffers[i].size <= page + used
  }

  /** None of the link words is in [a, a + n). */
  ghost predicate SparesLinks(a: nat, n: nat, pages: seq<nat>) {
    forall i :: 0 <= i < |pages| ==> Apart(a, n, pages[i], LINK)
  }

  function Next(pages: seq<nat>, i: nat): nat {
    if i + 1 < |pages| then pages[i + 1] else 0
  }

  lemma LinkAt(mem: seq<byte>, pages: seq<nat>, pagesize: nat, i: nat)
    requires |mem| == MEMORY && LINK <= pagesize && InMemory(pages, pagesize) && Linked(mem, pages, pagesize) && i < |pages|
    ensures LeValue(mem[pages[i]..pages[i] + LINK]) == Next(pages, i)
  {
  }

  lemma LinkedPatched(mem: seq<byte>, a: nat, bytes: seq<byte>, pages: seq<nat>, pagesize: nat)
    requires |mem| == MEMORY && LINK < pagesize && InMemory(pages, pagesize) && Linked(mem, pages, pagesize)
    requires a + |bytes| <= MEMORY && SparesLinks(a, |bytes|, pages)
    ensures Linked(Patch(mem, a, bytes), pages, pagesize)
  {
    var m := Patch(mem, a, bytes);
    forall i | 0 <= i < |pages|
      ensures m[pages[i]..pages[i] + LINK] == mem[pages[i]..pages[i] + LINK]
    {
      Untouched(mem, a, bytes, pages[i], LINK);
    }
    hide LeValue, Patch;
  }

  lemma LinkNewPage(mem: seq<byte>, page: nat, pages: seq<nat>, pagesize: nat)
    requires |mem| == MEMORY && LINK < pagesize && 0 < page && page + pagesize <= MEMORY
    requires InMemory([page] + pages, pagesize) && PagesApart([page] + pages, pagesize)
    requires InMemory(pages, pagesize) && Linked(mem, pages, pagesize)
    ensures Linked(Patch(mem, page, LeBytes(if pages == [] then 0 else pages[0], LINK)), [page] + pages, pagesize)
  {
    var prev := if pages == [] then 0 else pages[0];
    var all := [page] + pages;
    assert all[1..] == pages;
    forall i | 0 <= i < |pages|
      ensures Apart(page, LINK, pages[i], LINK) && pages[i] + pagesize <= MEMORY && pages[i] > 0
    {
      assert all[i + 1] == pages[i] && Apart(all[0], pagesize, all[i + 1], pagesize);
    }
    LinkedPatched(mem, page, LeBytes(prev, LINK), pages, pagesize);
    LeRoundTrip(prev, LeBytes(prev, LINK));
    hide LeValue, LeBytes, Patch;
    LinkedMore(Patch(mem, page, LeBytes(prev, LINK)), page, pages, pagesize);
  }

  lemma LinkedMore(mem: seq<byte>, page: nat, pages: seq<nat>, pagesize: nat)
    requires |mem| == MEMORY && LINK < pagesize && InMemory([page] + pages, pagesize) && InMemory(pages, pagesize) && Linked(mem, pages, pagesize)
    requires page + LINK <= MEMORY && LeValue(mem[page..page + LINK]) == if pages == [] then 0 else pages[0]
    ensures Linked(mem, [page] + pages, pagesize)
  {
    hide LeValue;
    var all := [page] + pages;
    forall i | 0 <= i < |all|
      ensures LeValue(mem[all[i]..all[i] + LINK]) == Next(all, i)
    {
      assert i + 1 < |all| ==> all[i + 1] == pages[i];
      if i > 0 {
        assert all[i] == pages[i - 1] && Next(all, i) == Next(pages, i - 1);
        LinkAt(mem, pages, pagesize, i - 1);
      }
    }
  }

  /** A buffer that starts at the mark of the current page is apart from all others. */
  lemma NewBuffer(buffers: seq<Buffer>, all: seq<nat>, page: nat, pagesize: nat, used: nat, size: nat)
    requires BuffersFit(buffers, all, pagesize) && BelowMark(buffers, page, pagesize, used)
    requires page in all && LINK <= used && used + size <= pagesize
    ensures BuffersFit(buffers + [Buffer(page + used, size)], all, pagesize)
    ensures BelowMark(buffers + [Buffer(page + used, size)], page, pagesize, used + size)
  {
    var b := Buffer(page + used, size);
    var i :| 0 <= i < |all| && all[i] == page;
    assert InPage(b, all[i], pagesize);
    var more := buffers + [b];
    forall j | 0 <= j < |more|
      ensures Housed(more[j], all, pagesize)
    {
      assert j < |buffers| ==> Housed(buffers[j], all, pagesize);
    }
    hide Housed;
  }

  lemma NewPage(buffers: seq<Buffer>, all: seq<nat>, page: nat, pagesize: nat, used: nat)
    requires BuffersFit(buffers, all, pagesize) && AllApart(page, pagesize, all, pagesize)
    ensures BuffersFit(buffers, [page] + all, pagesize) && BelowMark(buffers, page, pagesize, used)
  {
    var more := [page] + all;
    forall j | 0 <= j < |buffers|
      ensures Housed(buffers[j], more, pagesize) && Apart(buffers[j].addr, buffers[j].size, page, pagesize)
    {
      assert Housed(buffers[j], all, pagesize);
      var i :| 0 <= i < |all| && InPage(buffers[j], all[i], pagesize);
      assert more[i + 1] == all[i];
    }
  }

  lemma SparesFewer(a: nat, n: nat, pages: seq<nat>, all: seq<nat>)
    requires SparesLinks(a, n, all) && pages <= all
    ensures SparesLinks(a, n, pages)
  {
    assert forall i :: 0 <= i < |pages| ==> pages[i] == all[i];
  }

  lemma SparesPart(a: nat, n: nat, b: nat, m: nat, pages: seq<nat>)
    requires SparesLinks(a, n, pages) && a <= b && b + m <= a + n
    ensures SparesLinks(b, m, pages)
  {
  }

  /** The walk has come to buffer, the page after those visited. */
  ghost predicate Walked(pages: seq<nat>, visited: seq<nat>, buffer: nat) {
    && visited <= pages && buffer == if |visited| < |pages| then pages[|visited|] else 0
  }

  lemma WalkStarts(pages: seq<nat>, first: nat)
    requires first == if pages == [] then 0 else pages[0]
    ensures Walked(pages, [], first)
  {
  }

  lemma WalkOn(mem: seq<byte>, pages: seq<nat>, pagesize: nat, visited: seq<nat>, buffer: nat)
    requires |mem| == MEMORY && LINK <= pagesize && InMemory(pages, pagesize) && Linked(mem, pages, pagesize)
    requires Walked(pages, visited, buffer) && buffer != 0
    ensures buffer + LINK <= MEMORY && |visited| < |pages|
    ensures Walked(pages, visited + [buffer], LeValue(mem[buffer..buffer + LINK]))
  {
    hide LeValue;
    var k := |visited|;
    assert visited + [buffer] == pages[..k + 1];
    LinkAt(mem, pages, pagesize, k);
  }

  lemma WalkEnds(pages: seq<nat>, pagesize: nat, visited: seq<nat>)
    requires Walked(pages, visited, 0) && InMemory(pages, pagesize)
    ensures visited == pages
  {
    assert visited == pages[..|visited|];
  }

  lemma PagesMore(all: seq<nat>, page: nat, pagesize: nat)
    requires InMemory(all, pagesize) && PagesApart(all, pagesize) && 0 < page && page + pagesize <= MEMORY
    requires AllApart(page, pagesize, all, pagesize)
    ensures InMemory([page] + all, pagesize) && PagesApart([page] + all, pagesize)
  {
    var more := [page] + all;
    assert forall i :: 0 < i < |more| ==> more[i] == all[i - 1];
  }

  lemma PrefixMore(pages: seq<nat>, all: seq<nat>, page: nat, pagesize: nat)
    requires pages <= all && InMemory([page] + all, pagesize) && PagesApart([page] + all, pagesize)
    ensures [page] + pages <= [page] + all && InMemory([page] + pages, pagesize) && PagesApart([page] + pages, pagesize)
  {
    var a, b := [page] + pages, [page] + all;
    assert a == b[..|a|];
    assert forall i :: 0 <= i < |a| ==> a[i] == b[i];
  }

  lemma LastHoused(buffers: seq<Buffer>, all: seq<nat>, pagesize: nat)
    requires buffers != [] && BuffersFit(buffers, all, pagesize)
    ensures Housed(buffers[|buffers| - 1], all, pagesize)
  {
    hide Housed;
  }

  lemma HousedApart(b: Buffer, all: seq<nat>, pagesize: nat)
    requires Housed(b, all, pagesize) && PagesApart(all, pagesize) && InMemory(all, pagesize) && LINK < pagesize
    ensures b.addr + b.size <= MEMORY && SparesLinks(b.addr, b.size, all)
  {
    var i :| 0 <= i < |all| && InPage(b, all[i], pagesize);
    forall j | 0 <= j < |all|
      ensures Apart(b.addr, b.size, all[j], LINK)
    {
      assert i < j ==> Apart(all[i], pagesize, all[j], pagesize);
      assert j < i ==> Apart(all[j], pagesize, all[i], pagesize);
    }
  }

  // ---- What requests leave behind.

  /** A request for memory, and what the system answers if it is asked for a page: 0 or the page. */
  datatype Request = Request(size: nat, grant: nat)

  /** pages: those that the walk from the current page reaches, newest first; all: every page ever
      granted, newest first; used: the mark in the current page. */
  datatype Supply = Supply(pages: seq<nat>, all: seq<nat>, used: nat)

  function Current(s: Supply): nat {
    if s.pages == [] then 0 else s.pages[0]
  }

  /** The system is asked for a page: there is no current one, or it has no room. */
  predicate Asks(s: Supply, size: nat, pagesize: nat) {
    s.pages == [] || s.used + size > pagesize
  }

  /** The request fits, it gets a page, or it is refused one, which forgets the pages so far. */
  function After(s: Supply, r: Request, pagesize: nat): Supply {
    if !Asks(s, r.size, pagesize) then s.(used := s.used + r.size)
    else if r.grant != 0 then Supply([r.grant] + s.pages, [r.grant] + s.all, LINK + r.size)
    else s.(pages := [])
  }

  function Supplied(pagesize: nat, rs: seq<Request>): Supply
    decreases |rs|
  {
    if rs == [] then Supply([], [], 0) else After(Supplied(pagesize, rs[..|rs| - 1]), rs[|rs| - 1], pagesize)
  }

  lemma SuppliedMore(pagesize: nat, rs: seq<Request>, r: Request)
    ensures Supplied(pagesize, rs + [r]) == After(Supplied(pagesize, rs), r, pagesize)
  {
    hide After;
    assert (rs + [r])[..|rs|] == rs;
  }

  /** What a caller can keep count of: the bytes left in the current page, -1 when there is none. */
  function Left(pagesize: nat, rs: seq<Request>): int
    decreases |rs|
  {
    if rs == [] then -1
    else
      var left := Left(pagesize, rs[..|rs| - 1]);
      var r := rs[|rs| - 1];
      if r.size <= left then left - r.size else if r.grant != 0 then pagesize - LINK - r.size else -1
  }

  /** The i-th request needs a new page. */
  predicate NeedsPage(pagesize: nat, rs: seq<Request>, i: nat)
    requires i < |rs|
  {
    rs[i].size > Left(pagesize, rs[..i])
  }

  predicate GrantedAt(pagesize: nat, rs: seq<Request>, i: nat)
    requires i < |rs|
  {
    NeedsPage(pagesize, rs, i) && rs[i].grant != 0
  }

  predicate RefusedAt(pagesize: nat, rs: seq<Request>, i: nat)
    requires i < |rs|
  {
    NeedsPage(pagesize, rs, i) && rs[i].grant == 0
  }

  /** A request that needed a page was refused one after another had been granted one. */
  ghost predicate RefusedLater(pagesize: nat, rs: seq<Request>) {
    exists i, j :: 0 <= i < j < |rs| && GrantedAt(pagesize, rs, i) && RefusedAt(pagesize, rs, j)
  }

  /** Every page granted to one of the requests, newest first. */
  function Grants(pagesize: nat, rs: seq<Request>): seq<nat>
    decreases |rs|
  {
    if rs == [] then []
    else
      var before := Grants(pagesize, rs[..|rs| - 1]);
      if GrantedAt(pagesize, rs, |rs| - 1) then [rs[|rs| - 1].grant] + before else before
  }

  /** The walk reaches every page ever granted if and only if no request that needed a page was
      refused one after another had been granted one. */
  lemma WalkReachesAll(pagesize: nat, rs: seq<Request>)
    ensures Supplied(pagesize, rs).all == Grants(pagesize, rs)
    ensures Supplied(pagesize, rs).pages == Grants(pagesize, rs) <==> !RefusedLater(pagesize, rs)
  {
    Accounts(pagesize, rs);
    hide RefusedLater, Supplied, Grants;
  }

  ghost predicate SomeGranted(pagesize: nat, rs: seq<Request>) {
    exists i :: 0 <= i < |rs| && GrantedAt(pagesize, rs, i)
  }

  lemma {:induction false} Accounts(pagesize: nat, rs: seq<Request>)
    ensures var s := Supplied(pagesize, rs);
      && s.all == Grants(pagesize, rs) && s.pages <= s.all
      && Left(pagesize, rs) == (if s.pages == [] then -1 else pagesize - s.used)
      && (s.all != [] <==> SomeGranted(pagesize, rs))
      && (s.pages == s.all <==> !RefusedLater(pagesize, rs))
    decreases |rs|
  {
    if rs != [] {
      hide SomeGranted, RefusedLater;
      var init, r := rs[..|rs| - 1], rs[|rs| - 1];
      Accounts(pagesize, init);
      LastRequest(pagesize, rs);
      Forgotten(Supplied(pagesize, init), r, pagesize);
    } else {
      assert Supplied(pagesize, rs).pages == [];
    }
  }

  /** What one request does to the two lists. */
  lemma Forgotten(s: Supply, r: Request, pagesize: nat)
    requires s.pages <= s.all
    ensures var t := After(s, r, pagesize);
      && t.pages <= t.all
      && (t.all != [] <==> s.all != [] || (Asks(s, r.size, pagesize) && r.grant != 0))
      && (t.pages == t.all <==> s.pages == s.all && !(Asks(s, r.size, pagesize) && r.grant == 0 && s.all != []))
  {
    var t := After(s, r, pagesize);
    if Asks(s, r.size, pagesize) && r.grant != 0 {
      assert t.pages[1..] == s.pages && t.all[1..] == s.all;
      assert t.all[..|t.pages|] == [r.grant] + s.all[..|s.pages|];
    }
  }

  /** The last request against those before it. */
  lemma LastRequest(pagesize: nat, rs: seq<Request>)
    requires rs != []
    ensures var init := rs[..|rs| - 1];
      && (SomeGranted(pagesize, rs) <==> SomeGranted(pagesize, init) || GrantedAt(pagesize, rs, |rs| - 1))
      && (RefusedLater(pagesize, rs) <==>
          RefusedLater(pagesize, init) || (SomeGranted(pagesize, init) && RefusedAt(pagesize, rs, |rs| - 1)))
  {
    hide Left;
    var init := rs[..|rs| - 1];
    forall i | 0 <= i < |init|
      ensures GrantedAt(pagesize, rs, i) == GrantedAt(pagesize, init, i) && RefusedAt(pagesize, rs, i) == RefusedAt(pagesize, init, i)
    {
      assert rs[..i] == init[..i];
    }
    hide GrantedAt, RefusedAt;
  }

  // ---- Memory, pages and buffers together.

  ghost predicate Layout(mem: seq<byte>, s: Supply, buffers: seq<Buffer>, pagesize: nat) {
    && LINK < pagesize && |mem| == MEMORY
    && InMemory(s.all, pagesize) && PagesApart(s.all, pagesize) && BuffersFit(buffers, s.all, pagesize)
    && s.pages <= s.all && InMemory(s.pages, pagesize) && Linked(mem, s.pages, pagesize)
    && (s.pages != [] ==> LINK <= s.used <= pagesize && BelowMark(buffers, s.pages[0], pagesize, s.used))
  }

  lemma LayoutEmpty(mem: seq<byte>, pagesize: nat)
    requires LINK < pagesize && |mem| == MEMORY
    ensures Layout(mem, Supply([], [], 0), [], pagesize)
  {
  }

  lemma LayoutRefused(mem: seq<byte>, s: Supply, buffers: seq<Buffer>, pagesize: nat)
    requires Layout(mem, s, buffers, pagesize)
    ensures Layout(mem, s.(pages := []), buffers, pagesize)
  {
    hide BuffersFit, BelowMark, PagesApart;
  }

  lemma LayoutPage(mem: seq<byte>, s: Supply, buffers: seq<Buffer>, pagesize: nat, page: nat)
    requires Layout(mem, s, buffers, pagesize) && 0 < page && page + pagesize <= MEMORY && AllApart(page, pagesize, s.all, pagesize)
    ensures Layout(Patch(mem, page, LeBytes(Current(s), LINK)), Supply([page] + s.pages, [page] + s.all, LINK), buffers, pagesize)
  {
    hide BuffersFit, BelowMark, Linked, Patch, PagesApart, AllApart, LeBytes;
    PagesMore(s.all, page, pagesize);
    PrefixMore(s.pages, s.all, page, pagesize);
    LinkNewPage(mem, page, s.pages, pagesize);
    NewPage(buffers, s.all, page, pagesize, LINK);
  }

  lemma LayoutBuffer(mem: seq<byte>, s: Supply, buffers: seq<Buffer>, pagesize: nat, size: nat)
    requires Layout(mem, s, buffers, pagesize) && s.pages != [] && s.used + size <= pagesize
    ensures var b := Buffer(s.pages[0] + s.used, size);
      && Layout(mem, s.(used := s.used + size), buffers + [b], pagesize)
      && Housed(b, s.all, pagesize)
  {
    hide BuffersFit, BelowMark, Linked, PagesApart;
    var b := Buffer(s.pages[0] + s.used, size);
    NewBuffer(buffers, s.all, s.pages[0], pagesize, s.used, size);
    LastHoused(buffers + [b], s.all, pagesize);
  }

  lemma LayoutWrite(mem: seq<byte>, s: Supply, buffers: seq<Buffer>, pagesize: nat, a: nat, bytes: seq<byte>)
    requires Layout(mem, s, buffers, pagesize) && a + |bytes| <= MEMORY && SparesLinks(a, |bytes|, s.all)
    ensures Layout(Patch(mem, a, bytes), s, buffers, pagesize)
  {
    hide Patch, BuffersFit, BelowMark, PagesApart;
    SparesFewer(a, |bytes|, s.pages, s.all);
    LinkedPatched(mem, a, bytes, s.pages, pagesize);
  }

  lemma LayoutHoused(mem: seq<byte>, s: Supply, buffers: seq<Buffer>, pagesize: nat, i: nat)
    requires Layout(mem, s, buffers, pagesize) && i < |buffers|
    ensures buffers[i].addr + buffers[i].size <= MEMORY && SparesLinks(buffers[i].addr, buffers[i].size, s.all)
  {
    hide BelowMark, Linked, PagesApart, InMemory;
    HousedApart(buffers[i], s.all, pagesize);
  }
}
