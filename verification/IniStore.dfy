/** The INI store (libs/simpleini/SimpleIni.h:340-370, 1495-1562, 2079-2185, 2380-2451, 2530-2860,
    2945-2959) with several values to a key. Entries are kept in load order, which is what the program's
    order numbers say: new ones come last, and a replaced key keeps the place of its first value. */
module IniStore {
  import opened IniText
  import opened Strings
  import opened Wrappers

  datatype Entry = Entry(key: string, value: string)
  datatype Section = Section(name: string, entries: seq<Entry>)

  // ---- Names are compared without case.

  function Lower(c: char): char {
    if 'A' <= c <= 'Z' then c - 'A' + 'a' else c
  }

  function Fold(s: string): (t: string)
    ensures |t| == |s|
  {
    seq(|s|, i requires 0 <= i < |s| => Lower(s[i]))
  }

  predicate Less(a: string, b: string) {
    if a == "" || b == "" then b != ""
    else if Lower(a[0]) != Lower(b[0]) then Lower(a[0]) < Lower(b[0])
    else Less(a[1..], b[1..])
  }

  predicate Same(a: string, b: string) {
    Fold(a) == Fold(b)
  }

  /** The order of the program's maps takes two names for one exactly if they differ in case alone. */
  lemma {:induction false} NeitherLess(a: string, b: string)
    ensures !Less(a, b) && !Less(b, a) <==> Same(a, b)
  {
    if a != "" && b != "" {
      NeitherLess(a[1..], b[1..]);
      assert Fold(a) == [Lower(a[0])] + Fold(a[1..]);
      assert Fold(b) == [Lower(b[0])] + Fold(b[1..]);
      assert Same(a, b) ==> Fold(a)[0] == Fold(b)[0] && Fold(a)[1..] == Fold(b)[1..];
    } else {
      assert |Fold(a)| == |a| && |Fold(b)| == |b|;
      assert a == b ==> Same(a, b);
    }
  }

  // ---- What a section holds.

  /** The values of a key, in load order. */
  function Values(es: seq<Entry>, key: string): seq<string> {
    if es == [] then []
    else (if Same(es[0].key, key) then [es[0].value] else []) + Values(es[1..], key)
  }

  /** The entries of all other keys. */
  function Others(es: seq<Entry>, key: string): (r: seq<Entry>)
    ensures |r| <= |es|
  {
    if es == [] then []
    else (if Same(es[0].key, key) then [] else [es[0]]) + Others(es[1..], key)
  }

  /** The keys in load order, each in the writing of its first entry. */
  function Keys(es: seq<Entry>): seq<string>
    decreases |es|
  {
    if es == [] then [] else [es[0].key] + Keys(Others(es[1..], es[0].key))
  }

  function Under(key: string, values: seq<string>): (es: seq<Entry>)
    ensures |es| == |values|
  {
    seq(|values|, i requires 0 <= i < |values| => Entry(key, values[i]))
  }

  /** The entries with those of one key together. */
  function Grouped(es: seq<Entry>): seq<Entry>
    decreases |es|
  {
    if es == [] then []
    else Under(es[0].key, Values(es, es[0].key)) + Grouped(Others(es[1..], es[0].key))
  }

  /** A key with one value, at the place of its first value so far. */
  function Replaced(es: seq<Entry>, key: string, value: string): seq<Entry> {
    if es == [] then [Entry(key, value)]
    else if Same(es[0].key, key) then [Entry(key, value)] + Others(es[1..], key)
    else [es[0]] + Replaced(es[1..], key, value)
  }

  /** The entries without one value of a key, or without any of it. */
  function Removed(es: seq<Entry>, key: string, value: Option<string>): (r: seq<Entry>)
    ensures |r| <= |es|
  {
    if es == [] then []
    else
      var rest := Removed(es[1..], key, value);
      if Taken(es[0], key, value) then rest else [es[0]] + rest
  }

  predicate Taken(e: Entry, key: string, value: Option<string>) {
    Same(e.key, key) && (value.None? || Same(e.value, value.value))
  }

  // ---- Replacing.

  lemma {:induction false} ValuesHead(es: seq<Entry>, key: string)
    requires es != []
    ensures Values(es, key) == if Same(es[0].key, key) then [es[0].value] + Values(es[1..], key) else Values(es[1..], key)
  {
  }

  lemma {:induction false} OthersHead(es: seq<Entry>, key: string)
    requires es != []
    ensures Others(es, key) == if Same(es[0].key, key) then Others(es[1..], key) else [es[0]] + Others(es[1..], key)
  {
  }

  lemma {:induction false} CatHead(a: seq<Entry>, b: seq<Entry>)
    requires a != []
    ensures a + b != [] && (a + b)[0] == a[0] && (a + b)[1..] == a[1..] + b
  {
  }

  lemma {:induction false} ValuesCat(a: seq<Entry>, b: seq<Entry>, key: string)
    ensures Values(a + b, key) == Values(a, key) + Values(b, key)
  {
    if a == [] {
      assert a + b == b && [] + Values(b, key) == Values(b, key);
    } else {
      hide Values, Same;
      ValuesCat(a[1..], b, key);
      CatHead(a, b);
      ValuesHead(a, key);
      ValuesHead(a + b, key);
      Assoc([a[0].value], Values(a[1..], key), Values(b, key));
    }
  }

  lemma {:induction false} OthersCat(a: seq<Entry>, b: seq<Entry>, key: string)
    ensures Others(a + b, key) == Others(a, key) + Others(b, key)
  {
    if a == [] {
      assert a + b == b && [] + Others(b, key) == Others(b, key);
    } else {
      hide Others, Same;
      OthersCat(a[1..], b, key);
      CatHead(a, b);
      OthersHead(a, key);
      OthersHead(a + b, key);
      Assoc([a[0]], Others(a[1..], key), Others(b, key));
    }
  }

  lemma {:induction false} ValuesOfOthers(es: seq<Entry>, gone: string, key: string)
    ensures Values(Others(es, gone), key) == if Same(key, gone) then [] else Values(es, key)
  {
    if es != [] {
      ValuesOfOthers(es[1..], gone, key);
      var rest := Others(es[1..], gone);
      if !Same(es[0].key, gone) {
        assert ([es[0]] + rest)[1..] == rest;
      } else {
        assert [] + rest == rest;
      }
    }
  }

  /** A forced value is the only one of its key, and no other key notices. */
  lemma {:induction false} ReplacedValues(es: seq<Entry>, key: string, value: string, other: string)
    ensures Values(Replaced(es, key, value), other) == if Same(other, key) then [value] else Values(es, other)
  {
    if es == [] {
      assert [Entry(key, value)][1..] == [];
    } else if Same(es[0].key, key) {
      var rest := Others(es[1..], key);
      assert ([Entry(key, value)] + rest)[1..] == rest;
      ValuesOfOthers(es[1..], key, other);
    } else {
      ReplacedValues(es[1..], key, value, other);
      var rest := Replaced(es[1..], key, value);
      assert ([es[0]] + rest)[1..] == rest;
    }
  }

  /** The keys with one of them in another writing, or with one more. */
  function Renamed(keys: seq<string>, key: string): seq<string> {
    if keys == [] then [key]
    else if Same(keys[0], key) then [key] + keys[1..]
    else [keys[0]] + Renamed(keys[1..], key)
  }

  /** And the keys stay in their order, the new value at the place of the first old one. */
  lemma {:induction false} ReplacedKeys(es: seq<Entry>, key: string, value: string)
    ensures Keys(Replaced(es, key, value)) == Renamed(Keys(es), key)
    decreases |es|
  {
    if es == [] {
      assert [Entry(key, value)][1..] == [];
    } else {
      var k := es[0].key;
      var rest := Others(es[1..], k);
      assert Keys(es) == [k] + Keys(rest);
      assert ([k] + Keys(rest))[1..] == Keys(rest);
      if Same(k, key) {
        SameOthers(es[1..], k, key);
        OthersTwice(es[1..], key);
        var r := Others(es[1..], key);
        assert ([Entry(key, value)] + r)[1..] == r;
      } else {
        var r := Replaced(es[1..], key, value);
        assert ([es[0]] + r)[1..] == r;
        OthersReplaced(es[1..], k, key, value);
        ReplacedKeys(rest, key, value);
      }
    }
  }

  lemma {:induction false} SameOthers(es: seq<Entry>, a: string, b: string)
    requires Same(a, b)
    ensures Others(es, a) == Others(es, b)
  {
    if es != [] {
      SameOthers(es[1..], a, b);
    }
  }

  lemma {:induction false} OthersTwice(es: seq<Entry>, key: string)
    ensures Others(Others(es, key), key) == Others(es, key)
  {
    if es != [] {
      OthersTwice(es[1..], key);
      var r := Others(es[1..], key);
      if !Same(es[0].key, key) {
        assert ([es[0]] + r)[1..] == r;
      } else {
        assert [] + r == r;
      }
    }
  }

  lemma {:induction false} OthersSwap(es: seq<Entry>, a: string, b: string)
    ensures Others(Others(es, a), b) == Others(Others(es, b), a)
  {
    if es != [] {
      OthersSwap(es[1..], a, b);
      OthersHead(es, a);
      OthersHead(es, b);
      var e := es[0];
      if !Same(e.key, a) {
        OthersHead([e] + Others(es[1..], a), b);
        assert ([e] + Others(es[1..], a))[1..] == Others(es[1..], a);
      }
      if !Same(e.key, b) {
        OthersHead([e] + Others(es[1..], b), a);
        assert ([e] + Others(es[1..], b))[1..] == Others(es[1..], b);
      }
    }
  }

  lemma {:induction false} OthersReplaced(es: seq<Entry>, k: string, key: string, value: string)
    requires !Same(k, key)
    ensures Others(Replaced(es, key, value), k) == Replaced(Others(es, k), key, value)
  {
    if es == [] {
      assert [Entry(key, value)][1..] == [];
    } else if Same(es[0].key, key) {
      var r := Others(es[1..], key);
      assert ([Entry(key, value)] + r)[1..] == r;
      OthersSwap(es[1..], key, k);
      assert ([es[0]] + Others(es[1..], k))[1..] == Others(es[1..], k);
    } else {
      OthersReplaced(es[1..], k, key, value);
      var r := Replaced(es[1..], key, value);
      assert ([es[0]] + r)[1..] == r;
      OthersHead([es[0]] + r, k);
      OthersHead(es, k);
      var o := Others(es[1..], k);
      assert ([es[0]] + o)[1..] == o;
    }
  }

  // ---- Grouping changes neither keys nor values.

  lemma {:induction false} ValuesUnder(key: string, values: seq<string>, other: string)
    ensures Values(Under(key, values), other) == if Same(key, other) then values else []
  {
    if values != [] {
      ValuesUnder(key, values[1..], other);
      assert Under(key, values)[1..] == Under(key, values[1..]);
    }
  }

  lemma {:induction false} OthersUnder(key: string, values: seq<string>, other: string)
    ensures Others(Under(key, values), other) == if Same(key, other) then [] else Under(key, values)
  {
    if values != [] {
      OthersUnder(key, values[1..], other);
      assert Under(key, values)[1..] == Under(key, values[1..]);
    }
  }

  lemma {:induction false} GroupedValues(es: seq<Entry>, key: string)
    ensures Values(Grouped(es), key) == Values(es, key)
    decreases |es|
  {
    if es != [] {
      var k := es[0].key;
      var rest := Others(es[1..], k);
      ValuesCat(Under(k, Values(es, k)), Grouped(rest), key);
      ValuesUnder(k, Values(es, k), key);
      GroupedValues(rest, key);
      ValuesOfOthers(es[1..], k, key);
      SameValues(es, k, key);
    }
  }

  lemma {:induction false} SameValues(es: seq<Entry>, a: string, b: string)
    ensures Same(a, b) ==> Values(es, a) == Values(es, b)
  {
    if es != [] {
      SameValues(es[1..], a, b);
    }
  }

  lemma {:induction false} GroupedOthers(es: seq<Entry>, k: string)
    ensures Others(Grouped(es), k) == Grouped(Others(es, k))
    decreases |es|
  {
    if es != [] {
      var key := es[0].key;
      var rest := Others(es[1..], key);
      OthersCat(Under(key, Values(es, key)), Grouped(rest), k);
      OthersUnder(key, Values(es, key), k);
      GroupedOthers(rest, k);
      OthersHead(es, k);
      if Same(key, k) {
        SameOthers(es[1..], key, k);
        OthersTwice(es[1..], k);
      } else {
        var o := Others(es[1..], k);
        assert ([es[0]] + o)[1..] == o;
        OthersSwap(es[1..], key, k);
        ValuesOfOthers(es[1..], k, key);
        assert Values(es, key) == Values([es[0]] + o, key);
      }
    }
  }

  lemma {:induction false} GroupedKeys(es: seq<Entry>)
    ensures Keys(Grouped(es)) == Keys(es)
    decreases |es|
  {
    if es != [] {
      var k := es[0].key;
      var rest := Others(es[1..], k);
      var g := Under(k, Values(es, k)) + Grouped(rest);
      var more := Values(es[1..], k);
      assert Values(es, k) == [es[0].value] + more;
      assert g[1..] == Under(k, more) + Grouped(rest);
      OthersCat(Under(k, more), Grouped(rest), k);
      OthersUnder(k, more, k);
      GroupedOthers(rest, k);
      OthersTwice(es[1..], k);
      assert Others(g[1..], k) == Grouped(rest);
      assert g[0] == Entry(k, es[0].value);
      GroupedKeys(rest);
    }
  }

  // ---- The sections.

  function PlaceOf(store: seq<Section>, name: string): (i: nat)
    ensures i <= |store| && (forall j :: 0 <= j < i ==> !Same(store[j].name, name)) && (i < |store| ==> Same(store[i].name, name))
  {
    if store == [] || Same(store[0].name, name) then 0 else 1 + PlaceOf(store[1..], name)
  }

  ghost predicate Distinct(store: seq<Section>) {
    forall i, j :: 0 <= i < j < |store| ==> !Same(store[i].name, store[j].name)
  }

  function WithSection(store: seq<Section>, name: string): (r: seq<Section>)
    ensures PlaceOf(r, name) < |r|
  {
    var i := PlaceOf(store, name);
    if i < |store| then store
    else
      var r := store + [Section(name, [])];
      assert Same(r[|store|].name, name);
      r
  }

  /** The store with a section, and with a key in it if there is one: a forced value replaces all that the
      key had, any other comes after them. */
  function Added(store: seq<Section>, name: string, key: Option<string>, value: string, force: bool): seq<Section> {
    var s := WithSection(store, name);
    if key.None? then s
    else
      var i := PlaceOf(s, name);
      var es := s[i].entries;
      s[i := s[i].(entries := if force then Replaced(es, key.value, value) else es + [Entry(key.value, value)])]
  }

  function Without(store: seq<Section>, i: nat): seq<Section>
    requires i < |store|
  {
    store[..i] + store[i + 1..]
  }

  /** The store without a section, a key or one value of a key, and whether there was anything to delete. */
  function Deleted(store: seq<Section>, name: string, key: Option<string>, value: Option<string>, removeEmpty: bool)
    : (bool, seq<Section>)
  {
    var i := PlaceOf(store, name);
    if i == |store| then (false, store)
    else if key.None? then (true, Without(store, i))
    else
      var es := store[i].entries;
      var left := Removed(es, key.value, value);
      if |left| == |es| then (false, store)
      else if removeEmpty && left == [] then (true, Without(store, i))
      else (true, store[i := store[i].(entries := left)])
  }

  // ---- The file.

  /** The section without a name comes first. */
  function FrontEmpty(store: seq<Section>): (r: seq<Section>)
    ensures |r| == |store|
  {
    var i := NoName(store);
    if i == |store| then store else [store[i]] + Without(store, i)
  }

  function NoName(store: seq<Section>): (i: nat)
    ensures i <= |store| && (forall j :: 0 <= j < i ==> store[j].name != "") && (i < |store| ==> store[i].name == "")
  {
    if store == [] || store[0].name == "" then 0 else 1 + NoName(store[1..])
  }

  function WriteEntries(es: seq<Entry>): string {
    if es == [] then "" else Line(es[0].key, es[0].value) + WriteEntries(es[1..])
  }

  function WriteSection(s: Section): string {
    (if s.name != "" then Header(s.name) else "") + WriteEntries(Grouped(s.entries))
  }

  const BREAK: string := "\r\n\r\n"

  function WriteSections(store: seq<Section>, more: bool): string {
    if store == [] then ""
    else (if more then BREAK else "") + WriteSection(store[0]) + WriteSections(store[1..], true)
  }

  function Written(store: seq<Section>): string {
    WriteSections(FrontEmpty(store), false)
  }

  /** What a text adds to a store, from some section on; none if a section name is not closed. */
  function Loaded(store: seq<Section>, current: string, text: string): Option<seq<Section>>
    decreases |text|
  {
    match FindEntry(text)
    case NoMore => Some(store)
    case Unclosed => None
    case Found(SectionLine(name), rest) => Loaded(Added(store, name, None, "", false), name, rest)
    case Found(KeyLine(key, value), rest) => Loaded(Added(store, current, Some(key), value, false), current, rest)
  }

  // ---- Writing and loading.

  ghost predicate EntriesOk(es: seq<Entry>) {
    forall i :: 0 <= i < |es| ==> KeyOk(es[i].key) && ValueOk(es[i].value)
  }

  ghost predicate Writable(store: seq<Section>) {
    Distinct(store) && forall i :: 0 <= i < |store| ==> (store[i].name == "" || NameOk(store[i].name)) && EntriesOk(Grouped(store[i].entries))
  }

  /** A store with the values of each key together, the section without a name first, and that one only if it
      holds something. */
  function Normal(store: seq<Section>): seq<Section> {
    var front := FrontEmpty(store);
    if front != [] && front[0] == Section("", []) then AllGrouped(front[1..]) else AllGrouped(front)
  }

  function AllGrouped(store: seq<Section>): (r: seq<Section>)
    ensures |r| == |store|
  {
    seq(|store|, i requires 0 <= i < |store| => Section(store[i].name, Grouped(store[i].entries)))
  }

  lemma LoadedSkips(store: seq<Section>, current: string, blank: string, t: string)
    requires forall i :: 0 <= i < |blank| ==> blank[i] in SPACES
    ensures Loaded(store, current, blank + t) == Loaded(store, current, t)
  {
    hide FindEntry;
    SpacesBefore(blank, t);
  }

  lemma FoundLast(done: seq<Section>, name: string, es: seq<Entry>)
    requires PlaceOf(done, name) == |done|
    ensures PlaceOf(done + [Section(name, es)], name) == |done|
  {
    var s := done + [Section(name, es)];
    assert Same(s[|done|].name, name);
    assert forall j :: 0 <= j < |done| ==> s[j] == done[j];
  }

  /** The lines of a section go to its end. */
  lemma {:induction false} LoadsEntries(done: seq<Section>, name: string, have: seq<Entry>, es: seq<Entry>, rest: string)
    requires PlaceOf(done, name) == |done| && EntriesOk(es)
    ensures Loaded(done + [Section(name, have)], name, WriteEntries(es) + rest)
      == Loaded(done + [Section(name, have + es)], name, rest)
    decreases |es|
  {
    hide Loaded, Line, KeyOk, ValueOk, WriteEntries, PlaceOf;
    if es == [] {
      NothingSaved([]);
      assert have + es == have && WriteEntries(es) + rest == rest;
    } else {
      var e := es[0];
      var tail := WriteEntries(es[1..]) + rest;
      WriteHead(es);
      Assoc(Line(e.key, e.value), WriteEntries(es[1..]), rest);
      LoadsLine(done, name, have, e, tail);
      LoadsEntries(done, name, have + [e], es[1..], rest);
      Assoc(have, [e], es[1..]);
      assert [e] + es[1..] == es;
    }
  }

  lemma LoadsLine(done: seq<Section>, name: string, have: seq<Entry>, e: Entry, tail: string)
    requires PlaceOf(done, name) == |done| && KeyOk(e.key) && ValueOk(e.value)
    ensures Loaded(done + [Section(name, have)], name, Line(e.key, e.value) + tail)
      == Loaded(done + [Section(name, have + [e])], name, tail)
  {
    hide FindEntry, KeyReads, ValueReads, Line;
    ReadsBack(e.key, e.value, tail);
    FoundLast(done, name, have);
    var s := done + [Section(name, have)];
    assert s[|done| := Section(name, have + [e])] == done + [Section(name, have + [e])];
  }

  lemma LoadsHeader(done: seq<Section>, current: string, name: string, t: string)
    requires PlaceOf(done, name) == |done| && NameOk(name)
    ensures Loaded(done, current, Header(name) + t) == Loaded(done + [Section(name, [])], name, t)
  {
    hide FindEntry, Header;
    HeaderReadsIff(name, t);
    LoadedSkips(done + [Section(name, [])], name, "\r\n", t);
  }

  /** Sections with names, each behind the ones that are there. */
  lemma {:induction false} LoadsSections(done: seq<Section>, current: string, ss: seq<Section>, more: bool)
    requires Distinct(done + ss)
    requires forall i :: 0 <= i < |ss| ==> NameOk(ss[i].name) && EntriesOk(Grouped(ss[i].entries))
    ensures Loaded(done, current, WriteSections(ss, more)) == Some(done + AllGrouped(ss))
    decreases |ss|
  {
    hide Loaded, EntriesOk, NameOk, WriteSections, WriteEntries, Grouped, AllGrouped, Distinct, Header;
    if ss == [] {
      NothingWritten(more);
      NothingLoaded(done, current);
      assert done + [] == done;
    } else {
      var s, g := ss[0], Grouped(ss[0].entries);
      var tail := WriteSections(ss[1..], true);
      var done' := done + [Section(s.name, g)];
      NotThere(done, ss);
      WrittenFirst(ss, more);
      assert forall i :: 0 <= i < |BREAK| ==> BREAK[i] in SPACES;
      LoadedSkips(done, current, if more then BREAK else "", Header(s.name) + (WriteEntries(g) + tail));
      LoadsHeader(done, current, s.name, WriteEntries(g) + tail);
      LoadsEntries(done, s.name, [], g, tail);
      assert [] + g == g;
      SameNames(done, ss, done');
      LoadsSections(done', s.name, ss[1..], true);
      GroupedFirst(ss);
      Assoc(done, [Section(s.name, g)], AllGrouped(ss[1..]));
    }
  }

  lemma NothingWritten(more: bool)
    ensures WriteSections([], more) == "" && AllGrouped([]) == []
  {
  }

  lemma NothingLoaded(done: seq<Section>, current: string)
    ensures Loaded(done, current, "") == Some(done)
  {
    assert FindEntry("") == NoMore;
  }

  lemma {:induction false} NotThere(done: seq<Section>, ss: seq<Section>)
    requires ss != [] && Distinct(done + ss)
    ensures PlaceOf(done, ss[0].name) == |done|
  {
    var all := done + ss;
    assert all[|done|] == ss[0] && forall j :: 0 <= j < |done| ==> all[j] == done[j];
  }

  lemma {:induction false} WrittenFirst(ss: seq<Section>, more: bool)
    requires ss != [] && NameOk(ss[0].name)
    ensures WriteSections(ss, more) ==
      (if more then BREAK else "") + (Header(ss[0].name) + (WriteEntries(Grouped(ss[0].entries)) + WriteSections(ss[1..], true)))
  {
    hide Header, Grouped, WriteEntries;
    var b, h, e, t := if more then BREAK else "", Header(ss[0].name), WriteEntries(Grouped(ss[0].entries)), WriteSections(ss[1..], true);
    Assoc(b, h + e, t);
    Assoc(h, e, t);
  }

  lemma {:induction false} SameNames(done: seq<Section>, ss: seq<Section>, done': seq<Section>)
    requires ss != [] && Distinct(done + ss) && |done'| == |done| + 1
    requires done' == done + [Section(ss[0].name, done'[|done|].entries)]
    ensures Distinct(done' + ss[1..])
  {
    var all, all' := done + ss, done' + ss[1..];
    assert forall i :: 0 <= i < |all| ==> all'[i].name == all[i].name;
  }

  lemma MovedAt<T>(s: seq<T>, i: nat, j: nat)
    requires i < |s| && j < |s|
    ensures var f := [s[i]] + (s[..i] + s[i + 1..]);
      && f[j] == s[if j > i then j else if j == 0 then i else j - 1]
      && s[j] == f[if j > i then j else if j == i then 0 else j + 1]
  {
  }

  /** Where each section of the file comes from, and where each goes. */
  lemma FrontAt(store: seq<Section>, j: nat)
    requires j < |store|
    ensures var i, f := NoName(store), FrontEmpty(store);
      && f[j] == store[if i == |store| || j > i then j else if j == 0 then i else j - 1]
      && store[j] == f[if i == |store| || j > i then j else if j == i then 0 else j + 1]
  {
    hide NoName, FrontEmpty;
    FrontIs(store);
    if NoName(store) < |store| {
      MovedAt(store, NoName(store), j);
    }
  }

  lemma FrontIs(store: seq<Section>)
    ensures var i := NoName(store);
      FrontEmpty(store) == if i == |store| then store else [store[i]] + (store[..i] + store[i + 1..])
  {
    hide NoName;
  }

  lemma FrontDistinct(store: seq<Section>)
    requires Distinct(store)
    ensures Distinct(FrontEmpty(store))
    ensures var f := FrontEmpty(store); forall i :: 0 < i < |f| ==> f[i].name != ""
    ensures forall s :: s in FrontEmpty(store) <==> s in store
  {
    hide FrontEmpty, Same;
    var n, f := NoName(store), FrontEmpty(store);
    forall i, j | 0 <= i < j < |f| ensures !Same(f[i].name, f[j].name) {
      FrontAt(store, i);
      FrontAt(store, j);
      SameBothWays(f[i].name, f[j].name);
    }
    forall i | 0 < i < |f| ensures f[i].name != "" {
      FrontAt(store, i);
      if n < |store| && f[i].name == "" {
        SameBothWays("", "");
      }
    }
    forall s ensures s in f <==> s in store {
      if s in f {
        var i :| 0 <= i < |f| && f[i] == s;
        FrontAt(store, i);
      }
      if s in store {
        var i :| 0 <= i < |store| && store[i] == s;
        FrontAt(store, i);
      }
    }
  }

  lemma SameBothWays(a: string, b: string)
    ensures Same(a, b) <==> Same(b, a)
    ensures Same(a, a)
  {
  }

  /** Saving a store and loading it again gives the same store, with the values of each key together. */
  lemma RoundTrip(store: seq<Section>)
    requires Writable(store)
    ensures Loaded([], "", CString(Written(store))) == Some(Normal(store))
  {
    hide FrontEmpty, Loaded, WriteSections, AllGrouped, Distinct, CString;
    var f := FrontEmpty(store);
    FrontWritable(store);
    SectionsClean(f, false);
    CleanText(WriteSections(f, false));
    if f == [] || f[0].name != "" {
      AllNamed(f);
    } else {
      LoadsNoName(f);
    }
  }

  lemma AllNamed(f: seq<Section>)
    requires Distinct(f) && forall i :: 0 <= i < |f| ==> NameOk(f[i].name) && EntriesOk(Grouped(f[i].entries))
    ensures Loaded([], "", WriteSections(f, false)) == Some(AllGrouped(f))
  {
    hide Loaded, WriteSections, AllGrouped, Grouped, EntriesOk, NameOk;
    assert [] + f == f && [] + AllGrouped(f) == AllGrouped(f);
    LoadsSections([], "", f, false);
  }

  lemma FrontWritable(store: seq<Section>)
    requires Writable(store)
    ensures var f := FrontEmpty(store);
      && Distinct(f) && (forall i :: 0 < i < |f| ==> NameOk(f[i].name))
      && forall i :: 0 <= i < |f| ==> (f[i].name == "" || NameOk(f[i].name)) && EntriesOk(Grouped(f[i].entries))
  {
    hide FrontEmpty, Grouped, EntriesOk, NameOk, Same, Distinct;
    FrontDistinct(store);
    var f := FrontEmpty(store);
    forall i | 0 <= i < |f| ensures (f[i].name == "" || NameOk(f[i].name)) && EntriesOk(Grouped(f[i].entries)) {
      assert f[i] in f;
    }
  }

  // ---- What is written has no NUL in it.

  lemma Joint(a: string, b: string)
    requires Free(a, NULS) && Free(b, NULS)
    ensures Free(a + b, NULS)
  {
  }

  lemma {:induction false} EntriesClean(es: seq<Entry>)
    requires EntriesOk(es)
    ensures Free(WriteEntries(es), NULS)
  {
    hide KeyReads, ValueReads, Line, Free;
    if es == [] {
      NoneFree();
    } else {
      EntriesClean(es[1..]);
      CleanLine(es[0].key, es[0].value);
      Joint(Line(es[0].key, es[0].value), WriteEntries(es[1..]));
    }
  }

  lemma NoneFree()
    ensures Free("", NULS) && Free(BREAK, NULS)
  {
  }

  lemma SectionClean(s: Section)
    requires (s.name == "" || NameOk(s.name)) && EntriesOk(Grouped(s.entries))
    ensures Free(WriteSection(s), NULS)
  {
    hide NameReads, Header, Grouped, EntriesOk, WriteEntries, Free;
    NoneFree();
    EntriesClean(Grouped(s.entries));
    if s.name != "" {
      CleanHeader(s.name);
    }
    Joint(if s.name != "" then Header(s.name) else "", WriteEntries(Grouped(s.entries)));
  }

  lemma {:induction false} SectionsClean(ss: seq<Section>, more: bool)
    requires forall i :: 0 <= i < |ss| ==> (ss[i].name == "" || NameOk(ss[i].name)) && EntriesOk(Grouped(ss[i].entries))
    ensures Free(WriteSections(ss, more), NULS)
    decreases |ss|
  {
    hide NameOk, Grouped, EntriesOk, WriteSection, Free;
    NoneFree();
    if ss != [] {
      SectionClean(ss[0]);
      SectionsClean(ss[1..], true);
      Joint(if more then BREAK else "", WriteSection(ss[0]));
      Joint((if more then BREAK else "") + WriteSection(ss[0]), WriteSections(ss[1..], true));
    }
  }

  lemma {:induction false} LoadsNoName(f: seq<Section>)
    requires f != [] && f[0].name == "" && Distinct(f) && EntriesOk(Grouped(f[0].entries))
    requires forall i :: 0 < i < |f| ==> NameOk(f[i].name) && EntriesOk(Grouped(f[i].entries))
    ensures Loaded([], "", WriteSections(f, false)) == Some(if f[0] == Section("", []) then AllGrouped(f[1..]) else AllGrouped(f))
  {
    hide Loaded, EntriesOk, NameOk, Distinct, Grouped, AllGrouped, WriteSections;
    var g := Grouped(f[0].entries);
    var tail := WriteSections(f[1..], true);
    NoHeader(f);
    SubDistinct(f);
    if f[0].entries == [] {
      assert WriteEntries([]) + tail == tail;
      NothingGrouped();
      LoadsSections([], "", f[1..], true);
      assert [] + AllGrouped(f[1..]) == AllGrouped(f[1..]);
    } else {
      SomeGrouped(f[0].entries);
      StartsNoName(g, tail);
      LoadsEntries([], "", [], g, tail);
      OneSection(g);
      var done := [Section("", g)];
      SameNames([], f, done);
      LoadsSections(done, "", f[1..], true);
      GroupedFirst(f);
    }
  }

  lemma {:induction false} NoHeader(f: seq<Section>)
    requires f != [] && f[0].name == ""
    ensures WriteSections(f, false) == WriteEntries(Grouped(f[0].entries)) + WriteSections(f[1..], true)
  {
    hide WriteEntries, Grouped;
    var w := WriteEntries(Grouped(f[0].entries));
    assert "" + w == w;
  }

  lemma NothingGrouped()
    ensures Grouped([]) == []
  {
  }

  lemma SomeGrouped(es: seq<Entry>)
    requires es != []
    ensures Grouped(es) != []
  {
  }

  lemma OneSection(g: seq<Entry>)
    ensures [] + [Section("", [] + g)] == [Section("", g)] && [] + [Section("", [])] == [Section("", [])]
  {
    assert [] + g == g;
  }

  lemma {:induction false} GroupedFirst(f: seq<Section>)
    requires f != []
    ensures [Section(f[0].name, Grouped(f[0].entries))] + AllGrouped(f[1..]) == AllGrouped(f)
  {
    hide Grouped;
  }

  lemma {:induction false} SubDistinct(f: seq<Section>)
    requires f != [] && Distinct(f)
    ensures Distinct([] + f[1..]) && Distinct([] + f)
  {
  }

  /** The section without a name is there as soon as an entry is put in it. */
  lemma {:induction false} StartsNoName(g: seq<Entry>, tail: string)
    requires g != [] && EntriesOk(g)
    ensures Loaded([], "", WriteEntries(g) + tail) == Loaded([] + [Section("", [])], "", WriteEntries(g) + tail)
  {
    hide FindEntry, KeyReads, ValueReads, Line;
    var t := WriteEntries(g[1..]) + tail;
    assert WriteEntries(g) + tail == Line(g[0].key, g[0].value) + t;
    ReadsBack(g[0].key, g[0].value, t);
    assert [] + [Section("", [])] == [Section("", [])];
    assert Added([], "", Some(g[0].key), g[0].value, false) == Added([Section("", [])], "", Some(g[0].key), g[0].value, false);
  }

  // ---- What a reader of the store sees.

  function KeysIn(store: seq<Section>, name: string): Option<seq<string>> {
    var i := PlaceOf(store, name);
    if i == |store| then None else Some(Keys(store[i].entries))
  }

  function ValuesIn(store: seq<Section>, name: string, key: string): seq<string> {
    var i := PlaceOf(store, name);
    if i == |store| then [] else Values(store[i].entries, key)
  }

  lemma FoundIs(store: seq<Section>, name: string, s: Section)
    requires Distinct(store) && s in store && Same(s.name, name)
    ensures PlaceOf(store, name) < |store| && store[PlaceOf(store, name)] == s
  {
    var j :| 0 <= j < |store| && store[j] == s;
  }

  /** After saving and loading, every section, every key and every list of values is there as before, but
      for a section without a name and without entries. */
  lemma NormalLooksTheSame(store: seq<Section>, name: string, key: string)
    requires Distinct(store)
    ensures ValuesIn(Normal(store), name, key) == ValuesIn(store, name, key)
    ensures KeysIn(Normal(store), name) == KeysIn(store, name) || (name == "" && KeysIn(store, "") == Some([]))
  {
    FrontDistinct(store);
    var f := FrontEmpty(store);
    hide FrontEmpty;
    var i, j := PlaceOf(store, name), PlaceOf(f, name);
    if i < |store| {
      FoundIs(f, name, store[i]);
    }
    if j < |f| {
      FoundIs(store, name, f[j]);
    }
    if f != [] && f[0] == Section("", []) {
      SameIndex(f[1..], name, key);
      if j > 0 {
        Later(f, name);
      } else {
        assert Fold(name) == Fold("");
        NoOther(f, name);
      }
    } else {
      SameIndex(f, name, key);
    }
  }

  lemma Later(f: seq<Section>, name: string)
    requires f != [] && PlaceOf(f, name) > 0
    ensures PlaceOf(f[1..], name) == PlaceOf(f, name) - 1
  {
  }

  lemma {:induction false} NoOther(f: seq<Section>, name: string)
    requires Distinct(f) && f != [] && Same(f[0].name, name)
    ensures PlaceOf(f[1..], name) == |f| - 1
  {
  }

  lemma {:induction false} SameIndex(f: seq<Section>, name: string, key: string)
    ensures PlaceOf(AllGrouped(f), name) == PlaceOf(f, name)
    ensures ValuesIn(AllGrouped(f), name, key) == ValuesIn(f, name, key) && KeysIn(AllGrouped(f), name) == KeysIn(f, name)
  {
    var i, g := PlaceOf(f, name), AllGrouped(f);
    assert forall j :: 0 <= j < |f| ==> g[j].name == f[j].name;
    if i < |f| {
      GroupedValues(f[i].entries, key);
      GroupedKeys(f[i].entries);
    }
  }

  // ---- Deleting.

  function Kept(values: seq<string>, value: Option<string>): seq<string> {
    if values == [] || value.None? then []
    else (if Same(values[0], value.value) then [] else [values[0]]) + Kept(values[1..], value)
  }

  /** Deleting takes away the values it names, and nothing of another key. */
  lemma {:induction false} RemovedValues(es: seq<Entry>, key: string, value: Option<string>, other: string)
    ensures Values(Removed(es, key, value), other) == if Same(other, key) then Kept(Values(es, key), value) else Values(es, other)
  {
    if es != [] {
      RemovedValues(es[1..], key, value, other);
      var rest := Removed(es[1..], key, value);
      var e := es[0];
      ValuesHead(es, key);
      ValuesHead(es, other);
      ValuesHead([e] + rest, other);
      assert ([e] + rest)[1..] == rest;
      KeptHead(e.value, Values(es[1..], key), value);
    }
  }

  lemma {:induction false} KeptHead(v: string, values: seq<string>, value: Option<string>)
    ensures Kept([v] + values, value) ==
      if value.None? then [] else if Same(v, value.value) then Kept(values, value) else [v] + Kept(values, value)
    ensures value.None? ==> Kept(values, value) == []
  {
    assert ([v] + values)[1..] == values;
  }

  /** How many of the first n entries stay. */
  function Rank(es: seq<Entry>, key: string, value: Option<string>, n: nat): (r: nat)
    requires n <= |es|
    ensures r <= n
  {
    if n == 0 then 0 else Rank(es, key, value, n - 1) + if Taken(es[n - 1], key, value) then 0 else 1
  }

  /** left are the entries that are not named, in their order. */
  ghost predicate IsRest(left: seq<Entry>, es: seq<Entry>, key: string, value: Option<string>) {
    && |left| == Rank(es, key, value, |es|)
    && forall i :: 0 <= i < |es| && !Taken(es[i], key, value) ==>
         Rank(es, key, value, i) < |left| && left[Rank(es, key, value, i)] == es[i]
  }

  lemma {:induction false} RankCat(a: seq<Entry>, e: Entry, key: string, value: Option<string>, n: nat)
    requires n <= |a|
    ensures Rank(a + [e], key, value, n) == Rank(a, key, value, n)
  {
    hide Taken;
    if n > 0 {
      RankCat(a, e, key, value, n - 1);
    }
  }

  lemma RestCat(left: seq<Entry>, a: seq<Entry>, e: Entry, key: string, value: Option<string>)
    requires IsRest(left, a, key, value)
    ensures IsRest(left + (if Taken(e, key, value) then [] else [e]), a + [e], key, value)
  {
    hide Taken, Rank;
    var es, more := a + [e], left + if Taken(e, key, value) then [] else [e];
    RankCat(a, e, key, value, |a|);
    RankNext(es, key, value, |a|);
    forall i | 0 <= i < |es| && !Taken(es[i], key, value)
      ensures Rank(es, key, value, i) < |more| && more[Rank(es, key, value, i)] == es[i]
    {
      RankCat(a, e, key, value, i);
      if i < |a| {
        assert es[i] == a[i];
      }
    }
  }

  lemma RankNext(es: seq<Entry>, key: string, value: Option<string>, n: nat)
    requires n < |es|
    ensures Rank(es, key, value, n + 1) == Rank(es, key, value, n) + if Taken(es[n], key, value) then 0 else 1
  {
  }

  lemma {:induction false} RemovedIsRest(es: seq<Entry>, key: string, value: Option<string>)
    ensures IsRest(Removed(es, key, value), es, key, value)
    decreases |es|
  {
    hide Taken;
    if es != [] {
      hide Removed, IsRest;
      var n := |es| - 1;
      RemovedIsRest(es[..n], key, value);
      RemovedCat(es[..n], es[n], key, value);
      RestCat(Removed(es[..n], key, value), es[..n], es[n], key, value);
      assert es[..n] + [es[n]] == es;
    }
  }

  // ---- What changes, for a reader of the store.

  /** What a key of the section has when another one, or one value of it, is gone. */
  function LeftOver(store: seq<Section>, name: string, key: string, value: Option<string>, other: string): seq<string> {
    if Same(other, key) then Kept(ValuesIn(store, name, key), value) else ValuesIn(store, name, other)
  }

  /** Something is deleted exactly if the section is there and, with a key, some value of it is named. The
      section goes if no key is given, or if it is to go when it is empty and nothing is left in it; otherwise
      its other entries stay in their order. All other sections stay as they are. */
  ghost predicate Deletes(was: seq<Section>, now: seq<Section>, name: string, key: Option<string>, value: Option<string>,
                          removeEmpty: bool, deleted: bool) {
    var i := PlaceOf(was, name);
    if i == |was| || (key.Some? && Kept(ValuesIn(was, name, key.value), value) == ValuesIn(was, name, key.value)) then
      !deleted && now == was
    else if key.None? || (removeEmpty && forall other: string :: LeftOver(was, name, key.value, value, other) == []) then
      deleted && now == was[..i] + was[i + 1..]
    else
      && deleted && |now| == |was| && now[i].name == was[i].name
      && (forall j :: 0 <= j < |was| && j != i ==> now[j] == was[j])
      && (forall other: string :: Values(now[i].entries, other) == LeftOver(was, name, key.value, value, other))
      && IsRest(now[i].entries, was[i].entries, key.value, value)
  }

  lemma {:induction false} KeptAll(es: seq<Entry>, key: string, value: Option<string>)
    ensures |Kept(Values(es, key), value)| <= |Values(es, key)|
    ensures |Removed(es, key, value)| == |es| - |Values(es, key)| + |Kept(Values(es, key), value)|
  {
    if es != [] {
      hide Same;
      KeptAll(es[1..], key, value);
      ValuesHead(es, key);
      RemovedHead(es, key, value);
      KeptHead(es[0].value, Values(es[1..], key), value);
    }
  }

  lemma {:induction false} KeptSame(values: seq<string>, value: Option<string>)
    ensures |Kept(values, value)| <= |values|
    ensures |Kept(values, value)| == |values| ==> Kept(values, value) == values
  {
    if values != [] {
      KeptSame(values[1..], value);
    }
  }

  /** A section holds nothing exactly if no key has a value in it. */
  lemma NothingHeld(es: seq<Entry>)
    ensures es == [] <==> forall other: string :: Values(es, other) == []
  {
    if es != [] {
      assert Values(es, es[0].key) != [];
    }
  }

  lemma DeletedIs(was: seq<Section>, name: string, key: Option<string>, value: Option<string>, removeEmpty: bool)
    ensures var d := Deleted(was, name, key, value, removeEmpty); Deletes(was, d.1, name, key, value, removeEmpty, d.0)
  {
    var i := PlaceOf(was, name);
    if i < |was| && key.Some? {
      var es := was[i].entries;
      var left := Removed(es, key.value, value);
      KeptAll(es, key.value, value);
      KeptSame(Values(es, key.value), value);
      RemovedIsRest(es, key.value, value);
      forall other: string ensures Values(left, other) == LeftOver(was, name, key.value, value, other) {
        RemovedValues(es, key.value, value, other);
      }
      NothingHeld(left);
      hide Removed, Kept, Values, Same, IsRest;
    }
  }

  /** Seen by name, in a store whose names are distinct: what was named is gone, and nothing else changes. */
  lemma DeletedLooks(was: seq<Section>, now: seq<Section>, name: string, key: Option<string>, value: Option<string>,
                     removeEmpty: bool, deleted: bool, n: string, k: string)
    requires Distinct(was) && Deletes(was, now, name, key, value, removeEmpty, deleted)
    ensures Distinct(now)
    ensures ValuesIn(now, n, k) ==
      if !Same(n, name) then ValuesIn(was, n, k) else if key.None? then [] else LeftOver(was, name, key.value, value, k)
    ensures !Same(n, name) ==> KeysIn(now, n) == KeysIn(was, n)
    ensures key.None? && Same(n, name) ==> KeysIn(now, n) == None
  {
    hide IsRest, Kept, Values, Keys, PlaceOf, Fold, LeftOver, ValuesIn, KeysIn;
    if !deleted {
      if Same(n, name) && key.Some? {
        NoneNamed(was, name, key.value, value, k);
        SameReader(was, n, name, k);
      }
      if key.None? && Same(n, name) {
        NotFound(was, n, name, k);
      }
    } else if |now| < |was| {
      GoneLooks(was, now, name, n, k);
      if key.Some? && Same(n, name) {
        assert LeftOver(was, name, key.value, value, k) == [];
      }
    } else {
      KeptLooks(was, now, name, key.value, value, n, k);
    }
  }

  lemma SameReader(store: seq<Section>, n: string, name: string, k: string)
    requires Same(n, name)
    ensures ValuesIn(store, n, k) == ValuesIn(store, name, k) && KeysIn(store, n) == KeysIn(store, name)
  {
    hide Same;
    SamePlace(store, n, name);
  }

  lemma NotFound(store: seq<Section>, n: string, name: string, k: string)
    requires Same(n, name) && PlaceOf(store, name) == |store|
    ensures ValuesIn(store, n, k) == [] && KeysIn(store, n) == None
  {
    hide Same;
    SamePlace(store, n, name);
  }

  lemma GoneLooks(was: seq<Section>, now: seq<Section>, name: string, n: string, k: string)
    requires Distinct(was) && PlaceOf(was, name) < |was|
    requires now == was[..PlaceOf(was, name)] + was[PlaceOf(was, name) + 1..]
    ensures Distinct(now)
    ensures if Same(n, name) then ValuesIn(now, n, k) == [] && KeysIn(now, n) == None
      else ValuesIn(now, n, k) == ValuesIn(was, n, k) && KeysIn(now, n) == KeysIn(was, n)
  {
    hide Values, Keys, PlaceOf, Distinct;
    var i, j := PlaceOf(was, name), PlaceOf(was, n);
    WithoutPlace(was, i, n);
    SamePlace(was, n, name);
    assert j == i ==> Same(n, name);
    hide Same;
    assert j < i ==> now[j] == was[j];
    assert i < j < |was| ==> now[j - 1] == was[j];
  }

  lemma KeptLooks(was: seq<Section>, now: seq<Section>, name: string, key: string, value: Option<string>, n: string, k: string)
    requires Distinct(was) && PlaceOf(was, name) < |was| == |now| && now[PlaceOf(was, name)].name == was[PlaceOf(was, name)].name
    requires forall j :: 0 <= j < |was| && j != PlaceOf(was, name) ==> now[j] == was[j]
    requires Values(now[PlaceOf(was, name)].entries, k) == LeftOver(was, name, key, value, k)
    ensures Distinct(now)
    ensures ValuesIn(now, n, k) == if Same(n, name) then LeftOver(was, name, key, value, k) else ValuesIn(was, n, k)
    ensures !Same(n, name) ==> KeysIn(now, n) == KeysIn(was, n)
  {
    hide Values, Keys, PlaceOf, Fold, LeftOver;
    NamesPlace(was, now, n);
    SamePlace(was, n, name);
    assert PlaceOf(was, n) == PlaceOf(was, name) ==> Same(n, name);
  }

  lemma NoneNamed(store: seq<Section>, name: string, key: string, value: Option<string>, k: string)
    requires PlaceOf(store, name) == |store| || Kept(ValuesIn(store, name, key), value) == ValuesIn(store, name, key)
    ensures LeftOver(store, name, key, value, k) == ValuesIn(store, name, k)
  {
    var i := PlaceOf(store, name);
    if i < |store| && Same(k, key) {
      SameValues(store[i].entries, k, key);
    }
  }

  lemma PlaceIs(store: seq<Section>, name: string, j: nat)
    requires j <= |store| && (forall k :: 0 <= k < j ==> !Same(store[k].name, name)) && (j < |store| ==> Same(store[j].name, name))
    ensures PlaceOf(store, name) == j
  {
    hide Same, PlaceOf;
    var p := PlaceOf(store, name);
    assert p < |store| ==> Same(store[p].name, name);
  }

  lemma SamePlace(store: seq<Section>, a: string, b: string)
    ensures Same(a, b) ==> PlaceOf(store, a) == PlaceOf(store, b)
  {
    hide PlaceOf, Fold;
    if Same(a, b) {
      PlaceIs(store, a, PlaceOf(store, b));
    }
  }

  lemma NamesPlace(was: seq<Section>, now: seq<Section>, n: string)
    requires |now| == |was| && forall j :: 0 <= j < |was| ==> now[j].name == was[j].name
    ensures PlaceOf(now, n) == PlaceOf(was, n)
    ensures Distinct(was) ==> Distinct(now)
  {
    hide Same;
    assert PlaceOf(now, n) <= |was| && PlaceOf(was, n) <= |now|;
  }

  lemma WithoutPlace(store: seq<Section>, i: nat, n: string)
    requires Distinct(store) && i < |store|
    ensures var r := store[..i] + store[i + 1..];
      && Distinct(r)
      && PlaceOf(r, n) == (var j := PlaceOf(store, n); if j < i then j else if j == i then |r| else j - 1)
  {
    hide Fold, PlaceOf;
    var r, j := store[..i] + store[i + 1..], PlaceOf(store, n);
    assert forall q :: 0 <= q < |r| ==> r[q] == store[if q < i then q else q + 1];
    PlaceIs(r, n, if j < i then j else if j == i then |r| else j - 1);
  }

  /** The section is there afterwards, at its place or behind all others, with one more value of the key behind
      those it has, or forced instead of them, at the place of the first. All else stays as it is. */
  ghost predicate Adds(was: seq<Section>, now: seq<Section>, name: string, key: Option<string>, value: string, force: bool) {
    var i := PlaceOf(was, name);
    && |now| == (if i == |was| then i + 1 else |was|)
    && now[i].name == (if i == |was| then name else was[i].name)
    && (forall j :: 0 <= j < |was| && j != i ==> now[j] == was[j])
    && (forall other: string :: Values(now[i].entries, other) ==
          if key.None? || !Same(other, key.value) then ValuesIn(was, name, other)
          else if force then [value] else ValuesIn(was, name, other) + [value])
    && Keys(now[i].entries) == (if key.None? then KeysOr(was, name) else WithKey(KeysOr(was, name), key.value, force))
  }

  function KeysOr(store: seq<Section>, name: string): seq<string> {
    match KeysIn(store, name)
    case None => []
    case Some(keys) => keys
  }

  /** A new key comes last; a forced one takes the place and gives its own writing. */
  function WithKey(keys: seq<string>, key: string, force: bool): seq<string> {
    if force then Renamed(keys, key)
    else if exists k :: k in keys && Same(k, key) then keys
    else keys + [key]
  }

  lemma AddedIs(was: seq<Section>, name: string, key: Option<string>, value: string, force: bool)
    ensures Adds(was, Added(was, name, key, value, force), name, key, value, force)
  {
    var i := PlaceOf(was, name);
    var s := WithSection(was, name);
    hide Same, Values, Keys, Renamed, Replaced;
    if i == |was| {
      FoundLast(was, name, []);
      NothingHeld([]);
      NoKeys();
      assert s[i] == Section(name, []);
      assert forall other: string :: Values(s[i].entries, other) == [];
    }
    assert PlaceOf(s, name) == i;
    assert Keys(s[i].entries) == KeysOr(was, name);
    assert forall other: string :: Values(s[i].entries, other) == ValuesIn(was, name, other);
    if key.Some? {
      EntriesAdded(s[i].entries, key.value, value, force);
    }
  }

  lemma NoKeys()
    ensures Keys([]) == []
  {
  }

  lemma EntriesAdded(es: seq<Entry>, key: string, value: string, force: bool)
    ensures var now := if force then Replaced(es, key, value) else es + [Entry(key, value)];
      && Keys(now) == WithKey(Keys(es), key, force)
      && forall other: string :: Values(now, other) ==
           if !Same(other, key) then Values(es, other) else if force then [value] else Values(es, other) + [value]
  {
    if force {
      ReplacedKeys(es, key, value);
      forall other: string ensures Values(Replaced(es, key, value), other) == if Same(other, key) then [value] else Values(es, other) {
        ReplacedValues(es, key, value, other);
      }
    } else {
      AppendedKeys(es, key, value);
      ListedKey(es, key);
      forall other: string
        ensures Values(es + [Entry(key, value)], other) == Values(es, other) + if Same(other, key) then [value] else []
      {
        ValuesCat(es, [Entry(key, value)], other);
        OneValue(Entry(key, value), other);
      }
    }
  }

  /** A key is listed exactly if it has an entry. */
  lemma {:induction false} ListedKey(es: seq<Entry>, key: string)
    ensures (exists k :: k in Keys(es) && Same(k, key)) <==> Values(es, key) != []
    decreases |es|
  {
    if es != [] {
      var rest := Others(es[1..], es[0].key);
      ListedKey(rest, key);
      ValuesOfOthers(es[1..], es[0].key, key);
      ValuesHead(es, key);
      hide Values, Others, Fold;
      assert es[0].key in Keys(es);
      assert forall k :: k in Keys(es) <==> k == es[0].key || k in Keys(rest);
    }
  }

  lemma {:induction false} AppendedKeys(es: seq<Entry>, key: string, value: string)
    ensures Keys(es + [Entry(key, value)]) == if Values(es, key) != [] then Keys(es) else Keys(es) + [key]
    decreases |es|
  {
    var e := Entry(key, value);
    if es == [] {
      assert [] + [e] == [e] && [e][1..] == [];
    } else {
      var k := es[0].key;
      var rest := Others(es[1..], k);
      CatHead(es, [e]);
      OthersCat(es[1..], [e], k);
      OneOther(e, k);
      ValuesHead(es, key);
      ValuesOfOthers(es[1..], k, key);
      hide Values, Others, Fold;
      assert Keys(es + [e]) == [k] + Keys(rest + if Same(key, k) then [] else [e]);
      if Same(key, k) {
        assert rest + [] == rest;
      } else {
        AppendedKeys(rest, key, value);
        Assoc([k], Keys(rest), [key]);
      }
    }
  }

  lemma OneOther(e: Entry, key: string)
    ensures Others([e], key) == if Same(e.key, key) then [] else [e]
  {
    assert [e][1..] == [];
  }

  /** Names stay distinct. */
  lemma AddedDistinct(was: seq<Section>, now: seq<Section>, name: string, key: Option<string>, value: string, force: bool)
    requires Distinct(was) && Adds(was, now, name, key, value, force)
    ensures Distinct(now)
  {
    hide Fold, PlaceOf, Values, Keys, WithKey;
    var i := PlaceOf(was, name);
    forall a, b | 0 <= a < b < |now|
      ensures !Same(now[a].name, now[b].name)
    {
      assert b < |was| ==> !Same(was[a].name, was[b].name);
    }
  }

  // ---- The program's store.

  datatype Result = Inserted | Updated

  lemma {:induction false} RemovedHead(es: seq<Entry>, key: string, value: Option<string>)
    requires es != []
    ensures Removed(es, key, value) ==
      if Taken(es[0], key, value) then Removed(es[1..], key, value) else [es[0]] + Removed(es[1..], key, value)
  {
  }

  lemma {:induction false} RemovedCat(a: seq<Entry>, e: Entry, key: string, value: Option<string>)
    ensures Removed(a + [e], key, value) == Removed(a, key, value) + if Taken(e, key, value) then [] else [e]
  {
    if a == [] {
      RemovedHead([e], key, value);
      assert [e][1..] == [] && [] + [e] == [e] && [e] + [] == [e];
    } else {
      hide Removed, Taken;
      RemovedCat(a[1..], e, key, value);
      CatHead(a, [e]);
      RemovedHead(a, key, value);
      RemovedHead(a + [e], key, value);
      Assoc([a[0]], Removed(a[1..], key, value), if Taken(e, key, value) then [] else [e]);
    }
  }

  lemma {:induction false} RemovesOthers(es: seq<Entry>, key: string)
    ensures Removed(es, key, None) == Others(es, key)
  {
    if es != [] {
      RemovesOthers(es[1..], key);
    }
  }

  /** Deleting a key and putting it back where it was first is replacing it. */
  lemma {:induction false} PutBack(es: seq<Entry>, key: string, value: string, n: nat)
    requires n <= |es| && (forall i :: 0 <= i < n ==> !Same(es[i].key, key)) && (n < |es| ==> Same(es[n].key, key))
    ensures n <= |Others(es, key)|
    ensures var o := Others(es, key); o[..n] + [Entry(key, value)] + o[n..] == Replaced(es, key, value)
    decreases |es|
  {
    hide Same, Others;
    if n > 0 {
      PutBack(es[1..], key, value, n - 1);
      OthersHead(es, key);
      InsertedBehind(es[0], Others(es[1..], key), Entry(key, value), n);
    } else if es != [] {
      OthersHead(es, key);
      InsertedFirst(Others(es, key), Entry(key, value));
    } else {
      NoOthers(key);
      InsertedFirst([], Entry(key, value));
    }
  }

  lemma NoOthers(key: string)
    ensures Others([], key) == []
  {
  }

  lemma InsertedFirst(o: seq<Entry>, e: Entry)
    ensures o[..0] + [e] + o[0..] == [e] + o
    ensures [e] + [] == [e]
  {
  }

  lemma InsertedBehind(head: Entry, o: seq<Entry>, e: Entry, n: nat)
    requires 0 < n <= |o| + 1
    ensures var p := [head] + o; p[..n] + [e] + p[n..] == [head] + (o[..n - 1] + [e] + o[n - 1..])
  {
  }

  class Ini {
    var sections: seq<Section>

    constructor ()
      ensures sections == []
    {
      sections := [];
    }

    method FindSection(name: string) returns (i: nat)
      ensures i == PlaceOf(sections, name)
    {
      i := 0;
      while i < |sections| && !Same(sections[i].name, name)
        invariant i <= |sections|
        invariant forall j :: 0 <= j < i ==> !Same(sections[j].name, name)
      {
        i := i + 1;
      }
    }

    static method FindKey(es: seq<Entry>, key: string) returns (i: nat)
      ensures i <= |es| && (forall j :: 0 <= j < i ==> !Same(es[j].key, key)) && (i < |es| ==> Same(es[i].key, key))
    {
      i := 0;
      while i < |es| && !Same(es[i].key, key)
        invariant i <= |es|
        invariant forall j :: 0 <= j < i ==> !Same(es[j].key, key)
      {
        i := i + 1;
      }
    }

    static method Remove(es: seq<Entry>, key: string, value: Option<string>) returns (left: seq<Entry>)
      ensures left == Removed(es, key, value)
    {
      left := [];
      for i := 0 to |es|
        invariant left == Removed(es[..i], key, value)
      {
        var e := es[i];
        assert es[..i + 1] == es[..i] + [e];
        RemovedCat(es[..i], e, key, value);
        if !(Same(e.key, key) && (value.None? || Same(e.value, value.value))) {
          left := left + [e];
        }
      }
      assert es[..|es|] == es;
    }

    /** A section, or a value in one; the section is made if it is not there. */
    method AddEntry(name: string, key: Option<string>, value: string, force: bool) returns (r: Result)
      modifies this
      ensures sections == Added(old(sections), name, key, value, force)
      ensures Adds(old(sections), sections, name, key, value, force)
      ensures r == Inserted <==>
        if key.None? then PlaceOf(old(sections), name) == |old(sections)|
        else ValuesIn(old(sections), name, key.value) == []
    {
      hide Adds;
      AddedIs(sections, name, key, value, force);
      var i := FindSection(name);
      ghost var was := sections;
      var isNew := i == |sections|;
      if isNew {
        sections := sections + [Section(name, [])];
        FoundLast(was, name, []);
      }
      if key.None? {
        return if isNew then Inserted else Updated;
      }
      var es := sections[i].entries;
      var at := FindKey(es, key.value);
      HasValue(es, key.value, at);
      r := if at == |es| then Inserted else Updated;
      if at < |es| && force {
        var left := Remove(es, key.value, None);
        RemovesOthers(es, key.value);
        PutBack(es, key.value, value, at);
        es := left[..at] + [Entry(key.value, value)] + left[at..];
      } else {
        if force {
          NotReplaced(es, key.value, value);
        }
        es := es + [Entry(key.value, value)];
      }
      sections := sections[i := sections[i].(entries := es)];
    }

    /** A section, a key of it, or one value of the key, and the section as well if it is to go when it is
        empty; nothing changes if there is nothing to delete. */
    method DeleteValue(name: string, key: Option<string>, value: Option<string>, removeEmpty: bool) returns (deleted: bool)
      modifies this
      ensures (deleted, sections) == Deleted(old(sections), name, key, value, removeEmpty)
      ensures Deletes(old(sections), sections, name, key, value, removeEmpty, deleted)
    {
      hide Deletes;
      DeletedIs(sections, name, key, value, removeEmpty);
      var i := FindSection(name);
      if i == |sections| {
        return false;
      }
      if key.Some? {
        var es := sections[i].entries;
        var left := Remove(es, key.value, value);
        if |left| == |es| {
          return false;
        }
        if !removeEmpty || left != [] {
          sections := sections[i := sections[i].(entries := left)];
          return true;
        }
      }
      sections := sections[..i] + sections[i + 1..];
      deleted := true;
    }

    method GetAllValues(name: string, key: string) returns (values: seq<string>)
      ensures values == ValuesIn(sections, name, key)
    {
      var i := FindSection(name);
      values := [];
      if i < |sections| {
        var es := sections[i].entries;
        for k := 0 to |es|
          invariant values == Values(es[..k], key)
        {
          assert es[..k + 1] == es[..k] + [es[k]];
          ValuesCat(es[..k], [es[k]], key);
          assert [es[k]][1..] == [];
          if Same(es[k].key, key) {
            values := values + [es[k].value];
          }
        }
        assert es[..|es|] == es;
      }
    }

    /** Each key of a section once, as it was first written. */
    method GetAllKeys(name: string) returns (found: bool, names: seq<string>)
      ensures KeysIn(sections, name) == if found then Some(names) else None
      ensures !found ==> names == []
    {
      names := [];
      var i := FindSection(name);
      found := i < |sections|;
      if found {
        var left := sections[i].entries;
        while left != []
          invariant names + Keys(left) == Keys(sections[i].entries)
          decreases |left|
        {
          var key := left[0].key;
          names := names + [key];
          RemovesOthers(left[1..], key);
          left := Remove(left[1..], key, None);
        }
        assert names + [] == names;
      }
    }

    /** The sections in the order of the file. */
    method InOrder() returns (order: seq<Section>)
      ensures order == FrontEmpty(sections)
    {
      order := sections;
      var i := 0;
      while i < |order| && order[i].name != ""
        invariant 0 <= i <= |order| && forall j :: 0 <= j < i ==> order[j].name != ""
      {
        i := i + 1;
      }
      if i < |order| {
        order := [order[i]] + (order[..i] + order[i + 1..]);
      }
    }

    method Save() returns (out: string)
      ensures out == Written(sections)
    {
      hide WriteSections, WriteEntries, Grouped, Header, FrontEmpty;
      var order := InOrder();
      assert order[0..] == order && "" + Written(sections) == Written(sections);
      out := "";
      for k := 0 to |order|
        invariant out + WriteSections(order[k..], k > 0) == Written(sections)
      {
        ghost var before := out;
        if k > 0 {
          out := out + BREAK;
        }
        if order[k].name != "" {
          out := out + Header(order[k].name);
        }
        var lines := SaveKeys(order[k]);
        out := out + lines;
        Next(order, k);
        Joined(before, order[k..], k > 0, out);
      }
      NoMoreSections(order, out);
    }

    /** All keys of a section, each with all its values. */
    static method SaveKeys(s: Section) returns (out: string)
      ensures out == WriteEntries(Grouped(s.entries))
    {
      hide WriteEntries, Grouped, Others;
      out := "";
      var left := s.entries;
      assert "" + WriteEntries(Grouped(left)) == WriteEntries(Grouped(s.entries));
      while left != []
        invariant out + WriteEntries(Grouped(left)) == WriteEntries(Grouped(s.entries))
        decreases |left|
      {
        ghost var before := out;
        ghost var start := left;
        var lines := SaveValues(left, left[0].key);
        out := out + lines;
        RemovesOthers(left[1..], left[0].key);
        left := Remove(left[1..], left[0].key, None);
        GroupWritten(before, start, left, out);
      }
      NoMoreEntries(out);
    }

    static method SaveValues(es: seq<Entry>, key: string) returns (out: string)
      ensures out == WriteEntries(Under(key, Values(es, key)))
    {
      hide Line, Values, Under;
      out := "";
      NoValues(key);
      assert es[..0] == [];
      for k := 0 to |es|
        invariant out == WriteEntries(Under(key, Values(es[..k], key)))
      {
        hide WriteEntries;
        assert es[..k + 1] == es[..k] + [es[k]];
        ValuesCat(es[..k], [es[k]], key);
        OneValue(es[k], key);
        if Same(es[k].key, key) {
          UnderMore(key, Values(es[..k], key), es[k].value);
          out := out + Line(key, es[k].value);
        } else {
          assert Values(es[..k], key) + [] == Values(es[..k], key);
        }
      }
      assert es[..|es|] == es;
    }

    /** The entries of a text up to its first NUL, each added to its section; not all of them if a section
        name is not closed. */
    method LoadData(data: string) returns (ok: bool)
      modifies this
      ensures ok <==> Loaded(old(sections), "", CString(data)).Some?
      ensures ok ==> Some(sections) == Loaded(old(sections), "", CString(data))
    {
      hide FindEntry, Find;
      var end := FindIn(data, 0, NULS);
      assert data[0..] == data;
      var text := data[..end];
      var pos := 0;
      var current := "";
      while true
        invariant 0 <= pos <= |text|
        invariant Loaded(sections, current, text[pos..]) == Loaded(old(sections), "", text)
        decreases |text| - pos
      {
        var f, next := NextEntry(text, pos);
        if f.NoMore? {
          return true;
        }
        if f.Unclosed? {
          return false;
        }
        var r: Result;
        match f.item {
          case SectionLine(name) =>
            current := name;
            r := AddEntry(name, None, "", false);
          case KeyLine(key, value) =>
            r := AddEntry(current, Some(key), value, false);
        }
        pos := next;
      }
    }
  }

  lemma {:induction false} HasValue(es: seq<Entry>, key: string, at: nat)
    requires at <= |es| && (forall i :: 0 <= i < at ==> !Same(es[i].key, key)) && (at < |es| ==> Same(es[at].key, key))
    ensures Values(es, key) == [] <==> at == |es|
    decreases |es|
  {
    if es != [] && at > 0 {
      HasValue(es[1..], key, at - 1);
    }
  }

  lemma {:induction false} NotReplaced(es: seq<Entry>, key: string, value: string)
    requires forall i :: 0 <= i < |es| ==> !Same(es[i].key, key)
    ensures Replaced(es, key, value) == es + [Entry(key, value)]
  {
    if es != [] {
      NotReplaced(es[1..], key, value);
    }
  }

  lemma Next(order: seq<Section>, k: nat)
    requires k < |order|
    ensures order[k..] != [] && order[k..][0] == order[k] && order[k..][1..] == order[k + 1..]
  {
  }

  lemma NoMoreSections(order: seq<Section>, out: string)
    ensures out + WriteSections(order[|order|..], |order| > 0) == out
  {
    assert order[|order|..] == [] && out + "" == out;
  }

  lemma NoMoreEntries(out: string)
    ensures out + WriteEntries(Grouped([])) == out
  {
    assert out + "" == out;
  }

  lemma NoValues(key: string)
    ensures WriteEntries(Under(key, Values([], key))) == ""
  {
  }

  lemma OneValue(e: Entry, key: string)
    ensures Values([e], key) == if Same(e.key, key) then [e.value] else []
  {
    assert [e][1..] == [];
  }

  lemma {:induction false} Joined(before: string, ss: seq<Section>, more: bool, out: string)
    requires ss != []
    requires out == (before + (if more then BREAK else "") + (if ss[0].name != "" then Header(ss[0].name) else ""))
      + WriteEntries(Grouped(ss[0].entries))
    ensures before + WriteSections(ss, more) == out + WriteSections(ss[1..], true)
  {
    hide Header, WriteEntries, Grouped, BREAK;
    var b, h := if more then BREAK else "", if ss[0].name != "" then Header(ss[0].name) else "";
    var e, t := WriteEntries(Grouped(ss[0].entries)), WriteSections(ss[1..], true);
    assert WriteSections(ss, more) == b + (h + e) + t;
    Assoc(before, b + (h + e), t);
    Assoc(before, b, h + e);
    Assoc(before + b, h, e);
  }

  lemma {:induction false} WriteCat(a: seq<Entry>, b: seq<Entry>)
    ensures WriteEntries(a + b) == WriteEntries(a) + WriteEntries(b)
  {
    hide Line, WriteEntries;
    if a == [] {
      assert a + b == b;
      NothingSaved(b);
    } else {
      WriteCat(a[1..], b);
      CatHead(a, b);
      WriteHead(a);
      WriteHead(a + b);
      Assoc(Line(a[0].key, a[0].value), WriteEntries(a[1..]), WriteEntries(b));
    }
  }

  lemma NothingSaved(b: seq<Entry>)
    ensures WriteEntries([]) == "" && WriteEntries([]) + WriteEntries(b) == WriteEntries(b)
  {
  }

  lemma WriteHead(es: seq<Entry>)
    requires es != []
    ensures WriteEntries(es) == Line(es[0].key, es[0].value) + WriteEntries(es[1..])
  {
    hide Line;
  }

  lemma UnderMore(key: string, values: seq<string>, v: string)
    ensures WriteEntries(Under(key, values + [v])) == WriteEntries(Under(key, values)) + Line(key, v)
  {
    hide Line;
    var e := Entry(key, v);
    assert Under(key, values + [v]) == Under(key, values) + [e];
    WriteCat(Under(key, values), [e]);
    assert [e][1..] == [] && Line(key, v) + "" == Line(key, v);
  }

  lemma {:induction false} GroupWritten(before: string, start: seq<Entry>, left: seq<Entry>, out: string)
    requires start != [] && left == Others(start[1..], start[0].key)
    requires out == before + WriteEntries(Under(start[0].key, Values(start, start[0].key)))
    ensures before + WriteEntries(Grouped(start)) == out + WriteEntries(Grouped(left))
  {
    var u := Under(start[0].key, Values(start, start[0].key));
    WriteCat(u, Grouped(left));
    Assoc(before, WriteEntries(u), WriteEntries(Grouped(left)));
  }

  /** What a small store looks like: a section with a value that needs quotes, and an empty one behind it. */
  lemma WrittenExample(store: seq<Section>)
    requires store == [Section("general", [Entry("b", " 2")]), Section("x", [])]
    ensures Written(store) == "[general]\r\nb = \" 2\"\r\n\r\n\r\n[x]\r\n"
  {
    InFileOrder(store);
    hide FrontEmpty, Grouped, WriteSection;
    ExampleSection(store[0]);
    ExampleEmpty(store[1]);
    assert store[1..] == [store[1]] && store[1..][1..] == [];
    assert WriteSections([], true) == "";
    assert WriteSections(store[1..], true) == BREAK + WriteSection(store[1]) + "";
    assert WriteSections(store, false) == "" + WriteSection(store[0]) + WriteSections(store[1..], true);
  }

  lemma InFileOrder(store: seq<Section>)
    requires |store| == 2 && store[0].name != "" && store[1].name != ""
    ensures FrontEmpty(store) == store
  {
    assert NoName(store) == 2;
  }

  lemma ExampleSection(s: Section)
    requires s == Section("general", [Entry("b", " 2")])
    ensures WriteSection(s) == "[general]\r\nb = \" 2\"\r\n"
  {
    var e := Entry("b", " 2");
    GroupedOne(e);
    hide Grouped;
    assert [e][1..] == [];
    assert Line("b", " 2") == "b = \" 2\"\r\n";
  }

  lemma ExampleEmpty(s: Section)
    requires s == Section("x", [])
    ensures WriteSection(s) == "[x]\r\n"
  {
    NothingGrouped();
  }

  lemma GroupedOne(e: Entry)
    ensures Grouped([e]) == [e]
  {
    OneValue(e, e.key);
    NothingGrouped();
    hide Values, Grouped;
    NextGroup(e);
  }

  lemma NextGroup(e: Entry)
    ensures Grouped([e]) == Under(e.key, Values([e], e.key)) + Grouped([])
  {
    assert [e][1..] == [];
  }
}
