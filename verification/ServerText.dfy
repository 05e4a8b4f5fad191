/** The settings that a server hides in its welcome text (src/settings.cpp:269-393): what the tokenizer
    finds in any text, and what the settings then are. */
module ServerText {
  import opened Strings
  import opened Wrappers

  datatype Param = Param(key: string, value: Option<string>)
  datatype Item = Item(name: string, params: seq<Param>)

  predicate InName(c: char) {
    'A' <= c <= 'Z' || '0' <= c <= '9'
  }

  function NameEnd(s: string): (n: nat)
    ensures n <= |s| && (forall i :: 0 <= i < n ==> InName(s[i])) && (n < |s| ==> !InName(s[n]))
  {
    if s == "" || !InName(s[0]) then 0 else 1 + NameEnd(s[1..])
  }

  // ---- The tokens.

  /** One parameter of a text that begins with '&', and the text behind it. */
  function NextParam(view: string): (r: (Param, string))
    requires view != ""
    ensures |r.1| < |view|
  {
    var v := view[1..];
    var n := Find(v, {'=', '&', '~'});
    var w := v[n..];
    if w != "" && w[0] == '=' then
      var x := w[1..];
      var m := Find(x, {'&'});
      (Param(v[..n], Some(x[..m])), x[m..])
    else
      (Param(v[..n], None), w)
  }

  function ParamList(view: string): seq<Param>
    decreases |view|
  {
    if view == "" || view[0] != '&' then []
    else
      var next := NextParam(view);
      [next.0] + ParamList(next.1)
  }

  /** The text from a '%' on up to the next '~': a name and its parameters, or nothing that can be read. */
  function Setting(setting: string): Option<Item> {
    var n := NameEnd(setting);
    if n < |setting| && setting[n] != '&' then None else Some(Item(setting[..n], ParamList(setting[n..])))
  }

  function Tokens(text: string): seq<Item>
    decreases |text|, 0
  {
    var pos := Find(text, {'%'});
    if pos == |text| then []
    else TokensIn(text[pos + 1..])
  }

  /** The same behind a '%'. */
  function TokensIn(str: string): seq<Item>
    decreases |str|, 1
  {
    var end := Find(str, {'~'});
    if end == |str| || Setting(str[..end]).None? then []
    else [Setting(str[..end]).value] + Tokens(str[end..])
  }

  // ---- Printing.

  function PrintParam(p: Param): string {
    "&" + p.key + if p.value.Some? then "=" + p.value.value else ""
  }

  function PrintParams(ps: seq<Param>): string {
    if ps == [] then "" else PrintParam(ps[0]) + PrintParams(ps[1..])
  }

  function Print(item: Item): string {
    "%" + item.name + PrintParams(item.params) + "~"
  }

  predicate ParamOk(p: Param) {
    Free(p.key, {'=', '&', '~'}) && (p.value.Some? ==> Free(p.value.value, {'&', '~'}))
  }

  predicate ItemOk(item: Item) {
    (forall i :: 0 <= i < |item.name| ==> InName(item.name[i])) && forall i :: 0 <= i < |item.params| ==> ParamOk(item.params[i])
  }

  /** Items with other text before each of them. */
  function Prose(fillers: seq<string>, items: seq<Item>): string
    requires |fillers| == |items|
  {
    if items == [] then "" else fillers[0] + (Print(items[0]) + Prose(fillers[1..], items[1..]))
  }

  /** Text in which no further item can be read: no '%', or no '~' behind the first one, or in between
      something that is not a name with parameters. */
  ghost predicate Stops(rest: string) {
    var pos := Find(rest, {'%'});
    pos == |rest| || StopsIn(rest[pos + 1..])
  }

  ghost predicate StopsIn(str: string) {
    Find(str, {'~'}) == |str| || Setting(str[..Find(str, {'~'})]).None?
  }

  // ---- A parameter list is read completely.

  lemma PrintedStarts(ps: seq<Param>)
    ensures PrintParams(ps) == "" || PrintParams(ps)[0] == '&'
  {
  }

  /** One printed parameter in front of others, or of nothing. */
  lemma ReadParam(p: Param, t: string)
    requires ParamOk(p) && (t == "" || t[0] == '&')
    ensures NextParam(PrintParam(p) + t) == (p, t)
  {
    var view := PrintParam(p) + t;
    var v := view[1..];
    if p.value.Some? {
      var w := "=" + (p.value.value + t);
      assert v == p.key + w;
      FindAt(p.key, w, {'=', '&', '~'});
      var x := w[1..];
      assert x == p.value.value + t;
      FindAt(p.value.value, t, {'&'});
    } else {
      assert v == p.key + t;
      FindAt(p.key, t, {'=', '&', '~'});
    }
  }

  lemma {:induction false} ReadPrinted(ps: seq<Param>)
    requires forall i :: 0 <= i < |ps| ==> ParamOk(ps[i])
    ensures ParamList(PrintParams(ps)) == ps
  {
    if ps != [] {
      PrintedStarts(ps[1..]);
      ReadParam(ps[0], PrintParams(ps[1..]));
      ReadPrinted(ps[1..]);
      assert (PrintParam(ps[0]) + PrintParams(ps[1..]))[0] == '&';
    }
  }

  lemma PrintRead(view: string)
    requires view != "" && view[0] == '&' && Free(view, {'~'})
    ensures var (p, t) := NextParam(view);
      PrintParam(p) + t == view && ParamOk(p) && Free(t, {'~'}) && (t == "" || t[0] == '&')
  {
    hide Find, Free, PrintParam;
    var v := view[1..];
    FreeParts(view, 1, {'~'});
    var n := Find(v, {'=', '&', '~'});
    FreeParts(v, n, {'~'});
    FreeBefore(v, {'=', '&', '~'});
    var w := v[n..];
    if w != "" && w[0] == '=' {
      var x := w[1..];
      FreeParts(w, 1, {'~'});
      var m := Find(x, {'&'});
      FreeParts(x, m, {'~'});
      FreeBefore(x, {'&'});
      FreeOfBoth(x[..m]);
      WithValue(view, n, m);
    } else {
      NotClosing(w);
      WithoutValue(view, n);
    }
  }

  lemma WithValue(view: string, n: nat, m: nat)
    requires view != "" && view[0] == '&' && n < |view[1..]| && view[1..][n] == '=' && m <= |view[1..][n..][1..]|
    ensures var v := view[1..]; var x := v[n..][1..];
      PrintParam(Param(v[..n], Some(x[..m]))) + x[m..] == view
  {
  }

  lemma WithoutValue(view: string, n: nat)
    requires view != "" && view[0] == '&' && n <= |view[1..]|
    ensures PrintParam(Param(view[1..][..n], None)) + view[1..][n..] == view
  {
  }

  lemma FreeOfBoth(s: string)
    requires Free(s, {'&'}) && Free(s, {'~'})
    ensures Free(s, {'&', '~'})
  {
  }

  lemma NotClosing(w: string)
    requires Free(w, {'~'})
    ensures w != "" ==> w[0] != '~'
  {
  }

  /** Nothing of the parameters is lost or left over. */
  lemma {:induction false} ConsumesAll(view: string)
    requires (view == "" || view[0] == '&') && Free(view, {'~'})
    ensures PrintParams(ParamList(view)) == view
    ensures forall i :: 0 <= i < |ParamList(view)| ==> ParamOk(ParamList(view)[i])
    decreases |view|
  {
    if view != "" {
      PrintRead(view);
      var next := NextParam(view);
      ConsumesAll(next.1);
      assert ParamList(view) == [next.0] + ParamList(next.1);
      assert ParamList(view)[1..] == ParamList(next.1);
    }
  }

  // ---- A whole text.

  lemma NameAt(name: string, t: string)
    requires (forall i :: 0 <= i < |name| ==> InName(name[i])) && (t == "" || !InName(t[0]))
    ensures NameEnd(name + t) == |name| && (name + t)[..|name|] == name && (name + t)[|name|..] == t
  {
    var u := name + t;
    assert forall i :: 0 <= i < |name| ==> u[i] == name[i];
    assert t != "" ==> u[|name|] == t[0];
  }

  lemma SettingPrinted(item: Item)
    requires ItemOk(item)
    ensures Setting(item.name + PrintParams(item.params)) == Some(item)
    ensures Free(item.name + PrintParams(item.params), {'~'})
  {
    var ps := PrintParams(item.params);
    PrintedStarts(item.params);
    NameAt(item.name, ps);
    ReadPrinted(item.params);
    PrintedFree(item.params);
  }

  lemma {:induction false} PrintedFree(ps: seq<Param>)
    requires forall i :: 0 <= i < |ps| ==> ParamOk(ps[i])
    ensures Free(PrintParams(ps), {'~'})
  {
    if ps != [] {
      PrintedFree(ps[1..]);
    }
  }

  lemma SettingRead(setting: string)
    requires Setting(setting).Some? && Free(setting, {'~'})
    ensures var item := Setting(setting).value; ItemOk(item) && item.name + PrintParams(item.params) == setting
  {
    var n := NameEnd(setting);
    var view := setting[n..];
    assert setting == setting[..n] + view;
    assert forall i :: 0 <= i < |view| ==> view[i] == setting[i + n];
    ConsumesAll(view);
  }

  /** The closing character of one item is skipped with the filler of the next. */
  lemma Skipped(filler: string, t: string)
    requires Free(filler, {'%'})
    ensures Tokens(filler + t) == Tokens(t) && (Stops(filler + t) <==> Stops(t))
  {
    hide Find, Free, TokensIn, StopsIn;
    FindSkips(filler, t, {'%'});
    var n := Find(t, {'%'});
    if n < |t| {
      Behind(filler, t, n + 1);
    }
  }

  lemma ReadItem(item: Item, t: string)
    requires ItemOk(item)
    ensures Tokens(Print(item) + t) == [item] + Tokens(t)
  {
    hide *;
    SettingPrinted(item);
    FreeClosing();
    Skipped("~", t);
    var setting := item.name + PrintParams(item.params);
    var str := setting + ("~" + t);
    First('%', str, {'%'});
    FindAt(setting, "~" + t, {'~'});
    PrintThen(item, t);
    AtPercent("%" + str);
    InSetting(str, |setting|, item);
  }

  lemma AtPercent(text: string)
    requires text != "" && Find(text, {'%'}) == 0
    ensures Tokens(text) == TokensIn(text[1..])
  {
    hide Find, TokensIn;
  }

  lemma InSetting(str: string, end: nat, item: Item)
    requires end == Find(str, {'~'}) && end < |str| && Setting(str[..end]) == Some(item)
    ensures TokensIn(str) == [item] + Tokens(str[end..])
  {
    hide Find, Setting, Tokens;
  }

  lemma PrintThen(item: Item, t: string)
    ensures Print(item) + t == "%" + (item.name + PrintParams(item.params) + ("~" + t))
  {
    hide PrintParams;
    Assoc("%" + item.name + PrintParams(item.params), "~", t);
    Assoc("%", item.name, PrintParams(item.params));
    Assoc("%", item.name + PrintParams(item.params), "~" + t);
  }

  /** Any items in any order, with other text between them, are read as they are, up to where no further
      item can be read. */
  lemma {:induction false} ReadsProse(fillers: seq<string>, items: seq<Item>, rest: string)
    requires |fillers| == |items| && Stops(rest)
    requires forall i :: 0 <= i < |items| ==> ItemOk(items[i]) && Free(fillers[i], {'%'})
    ensures Tokens(Prose(fillers, items) + rest) == items
  {
    hide Find, Free, Setting, Print, ItemOk, Tokens, Stops;
    if items == [] {
      assert Prose(fillers, items) + rest == rest;
      NoTokens(rest);
    } else {
      var tail := Prose(fillers[1..], items[1..]) + rest;
      ReadsProse(fillers[1..], items[1..], rest);
      ReadItem(items[0], tail);
      Skipped(fillers[0], Print(items[0]) + tail);
      ProseThen(fillers, items, rest);
    }
  }

  lemma ProseThen(fillers: seq<string>, items: seq<Item>, rest: string)
    requires |fillers| == |items| > 0
    ensures Prose(fillers, items) + rest == fillers[0] + (Print(items[0]) + (Prose(fillers[1..], items[1..]) + rest))
  {
    hide Print;
    Assoc(fillers[0], Print(items[0]) + Prose(fillers[1..], items[1..]), rest);
    Assoc(Print(items[0]), Prose(fillers[1..], items[1..]), rest);
  }

  /** And every text is of that form: what the tokenizer gives is all there is to read. */
  lemma {:induction false} EveryText(text: string) returns (fillers: seq<string>, rest: string)
    ensures |fillers| == |Tokens(text)| && Stops(rest)
    ensures forall i :: 0 <= i < |fillers| ==> ItemOk(Tokens(text)[i]) && Free(fillers[i], {'%'})
    ensures text == Prose(fillers, Tokens(text)) + rest
    decreases |text|
  {
    hide Find, Free, Setting, Print, ItemOk, Tokens;
    if Stops(text) {
      NoTokens(text);
      fillers, rest := [], text;
    } else {
      var filler, item, tail := FirstItem(text);
      var more, last := EveryText(tail);
      fillers, rest := [filler] + more, last;
      var items := Tokens(text);
      assert items[1..] == Tokens(tail) && fillers[1..] == more;
      ProseThen(fillers, items, rest);
    }
  }

  lemma NoTokens(text: string)
    requires Stops(text)
    ensures Tokens(text) == []
  {
    hide Find, Setting;
  }

  lemma FirstItem(text: string) returns (filler: string, item: Item, tail: string)
    requires !Stops(text)
    ensures text == filler + (Print(item) + tail) && |tail| < |text|
    ensures Free(filler, {'%'}) && ItemOk(item) && Tokens(text) == [item] + Tokens(tail)
  {
    hide Find, Free, Setting, ItemOk, Print;
    var pos := Find(text, {'%'});
    var str := text[pos + 1..];
    var end := Find(str, {'~'});
    filler, item, tail := text[..pos], Setting(str[..end]).value, str[end + 1..];
    FreeBefore(text, {'%'});
    FreeBefore(str, {'~'});
    FreeClosing();
    SettingRead(str[..end]);
    Skipped("~", tail);
    FoundAt(text, '%');
    FoundAt(str, '~');
    Around(text, pos, '%');
    Around(str, end, '~');
    PrintThen(item, tail);
  }

  lemma FreeClosing()
    ensures Free("~", {'%'})
  {
  }
}
