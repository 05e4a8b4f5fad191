/** The lines of an INI file (libs/simpleini/SimpleIni.h:1247-1260, 1611-1906, 2650-2738) with quotes on,
    keys without values off and multi-line values off, as src/settings.cpp:151-152 has it: finding the
    next entry of a text, writing a line, and which lines read back as what was written. */
module IniText {
  import opened Strings
  import opened Wrappers

  const NEWLINES: set<char> := {'\n', '\r'}
  const SPACES: set<char> := {' ', '\t', '\n', '\r'}
  const BLANKS: set<char> := {' ', '\t'}
  const COMMENTS: set<char> := {';', '#'}
  const NULS: set<char> := {'\0'}
  const KEY_ENDS: set<char> := {'=', '\n', '\r'}
  const QUOTE_ENDS: set<char> := {'"', '\n', '\r'}
  const NAME_ENDS: set<char> := {']', '\n', '\r'}

  datatype Item = SectionLine(name: string) | KeyLine(key: string, value: string)

  /** The next item and the text behind it; no more items; or a section name without its bracket, after
      which the program goes on with a name that runs into the following text. */
  datatype Found = Found(item: Item, rest: string) | NoMore | Unclosed

  // ---- Reading.

  /** What the loader takes for the text: all up to the first NUL. */
  function CString(t: string): string {
    t[..Find(t, NULS)]
  }

  /** How many of the leading characters are of some kind. */
  function Skip(s: string, kind: set<char>): (n: nat)
    ensures n <= |s| && (forall i :: 0 <= i < n ==> s[i] in kind) && (n < |s| ==> s[n] !in kind)
  {
    if s == "" || s[0] !in kind then 0 else 1 + Skip(s[1..], kind)
  }

  function TrimEnd(s: string): (t: string)
    ensures |t| <= |s| && t == s[..|t|] && (t != "" ==> t[|t| - 1] !in SPACES)
  {
    if s == "" then "" else if s[|s| - 1] in SPACES then TrimEnd(s[..|s| - 1]) else s
  }

  predicate InQuotes(s: string) {
    |s| >= 2 && s[0] == '"' && s[|s| - 1] == '"'
  }

  function Unquote(s: string): string {
    if InQuotes(s) then s[1..|s| - 1] else s
  }

  function AfterNewLine(s: string): (r: string)
    ensures |r| <= |s|
  {
    if |s| >= 2 && s[0] == '\r' && s[1] == '\n' then s[2..] else if s != "" then s[1..] else s
  }

  /** Where the search for the '=' of a line starts: at the closing quote, if the line opens one. */
  function KeyScan(u: string): (q: nat)
    requires u != ""
    ensures q <= |u| && (u[0] == '"' ==> q >= 1)
  {
    if u[0] == '"' then 1 + Find(u[1..], QUOTE_ENDS) else 0
  }

  /** What is behind the '=' of a line. */
  function ValueAt(key: string, w: string): (f: Found)
    ensures f.Found? && |f.rest| <= |w|
  {
    var x := w[Skip(w, BLANKS)..];
    var l := Find(x, NEWLINES);
    Found(KeyLine(key, Unquote(TrimEnd(x[..l]))), AfterNewLine(x[l..]))
  }

  function FindEntry(t: string): (f: Found)
    ensures f.Found? ==> |f.rest| < |t|
    decreases |t|, 2
  {
    FindFrom(t[Skip(t, SPACES)..])
  }

  /** The same where no blanks are left in front. */
  function FindFrom(u: string): (f: Found)
    requires u == "" || u[0] !in SPACES
    ensures f.Found? ==> |f.rest| < |u|
    decreases |u|, 1
  {
    if u == "" then NoMore
    else if u[0] in COMMENTS then FindEntry(u[Find(u, NEWLINES)..])
    else if u[0] == '[' then FindSection(u[1 + Skip(u[1..], SPACES)..])
    else FindKey(u)
  }

  /** A name up to its bracket; the rest of the line is left for the search to pass over. */
  function FindSection(v: string): (f: Found)
    ensures f.Found? ==> |f.rest| < |v|
  {
    var n := Find(v, NAME_ENDS);
    if n == |v| || v[n] != ']' then Unclosed
    else Found(SectionLine(TrimEnd(v[..n])), v[n + 1..][Find(v[n + 1..], NEWLINES)..])
  }

  function FindKey(u: string): (f: Found)
    requires u != "" && u[0] !in SPACES
    ensures f.Found? ==> |f.rest| < |u|
    decreases |u|, 0
  {
    var q := KeyScan(u);
    if u[0] == '"' && (q == |u| || u[q] != '"') then FindEntry(u[q..])
    else
      var e := q + Find(u[q..], KEY_ENDS);
      if e == |u| || u[e] != '=' then
        assert e > 0;
        FindEntry(u[e..])
      else if e == 0 then FindEntry(u[Find(u, NEWLINES)..])
      else ValueAt(Unquote(TrimEnd(u[..e])), u[e + 1..])
  }

  // ---- Writing.

  predicate IsQuotedKey(k: string) {
    k != "" && (k[0] == '[' || k[0] in SPACES || '=' in k || k[|k| - 1] in SPACES)
  }

  predicate IsSingleLineQuotedValue(v: string) {
    v != "" && (v[0] in SPACES || (Free(v, NEWLINES) && v[|v| - 1] in SPACES))
  }

  function Quoted(s: string): string {
    "\"" + s + "\""
  }

  function KeyText(k: string): string {
    if IsQuotedKey(k) then Quoted(k) else k
  }

  function ValueText(v: string): string {
    if IsSingleLineQuotedValue(v) then Quoted(v) else v
  }

  function Line(key: string, value: string): string {
    KeyText(key) + " = " + ValueText(value) + "\r\n"
  }

  function Header(name: string): string {
    "[" + name + "]\r\n"
  }

  // ---- What can be written so that it is read back from a text that goes on behind it.

  predicate ValueReads(v: string) {
    Free(v, NEWLINES) && !InQuotes(v)
  }

  predicate KeyReads(k: string) {
    && k != "" && Free(k, NEWLINES)
    && if IsQuotedKey(k) then Free(k[Find(k, {'"'})..], {'='})
       else k[0] !in COMMENTS && (k[0] == '"' ==> '"' in k[1..] && k[|k| - 1] != '"')
  }

  predicate NameReads(name: string) {
    name != "" && Free(name, NAME_ENDS) && name[0] !in SPACES && name[|name| - 1] !in SPACES
  }

  /** And with no NUL in it, where the loader would stop. */
  predicate KeyOk(k: string) {
    KeyReads(k) && Free(k, NULS)
  }

  predicate ValueOk(v: string) {
    ValueReads(v) && Free(v, NULS)
  }

  predicate NameOk(name: string) {
    NameReads(name) && Free(name, NULS)
  }

  lemma SkipAt(s: string, t: string, kind: set<char>)
    requires (forall i :: 0 <= i < |s| ==> s[i] in kind) && (t != "" ==> t[0] !in kind)
    ensures Skip(s + t, kind) == |s| && (s + t)[|s|..] == t
  {
    var u := s + t;
    assert forall i :: 0 <= i < |s| ==> u[i] == s[i];
    assert t != "" ==> u[|s|] == t[0];
  }

  lemma TrimAt(s: string, t: string)
    requires (s != "" ==> s[|s| - 1] !in SPACES) && forall i :: 0 <= i < |t| ==> t[i] in SPACES
    ensures TrimEnd(s + t) == s
  {
    if t == "" {
      assert s + t == s;
    } else {
      assert (s + t)[..|s + t| - 1] == s + t[..|t| - 1];
      TrimAt(s, t[..|t| - 1]);
    }
  }

  /** A written value at the end of its line. */
  lemma ReadValue(key: string, v: string, rest: string)
    requires Free(v, NEWLINES)
    ensures ValueAt(key, " " + ValueText(v) + "\r\n" + rest) == Found(KeyLine(key, if InQuotes(v) then Unquote(v) else v), rest)
  {
    hide Find, Skip, TrimEnd, Unquote, ValueText, Free;
    var x := ValueText(v);
    var t := x + ("\r\n" + rest);
    assert " " + x + "\r\n" + rest == " " + t;
    TextIsTrim(v);
    SkipAt(" ", t, BLANKS);
    FindAt(x, "\r\n" + rest, NEWLINES);
    TrimAt(x, "");
    assert x + "" == x;
    assert ("\r\n" + rest)[2..] == rest;
    UnquoteText(v);
  }

  lemma TextIsTrim(v: string)
    requires Free(v, NEWLINES)
    ensures var x := ValueText(v); Free(x, NEWLINES) && (x != "" ==> x[0] !in SPACES && x[|x| - 1] !in SPACES)
  {
  }

  lemma UnquoteText(v: string)
    requires Free(v, NEWLINES)
    ensures Unquote(ValueText(v)) == if InQuotes(v) then Unquote(v) else v
  {
    if IsSingleLineQuotedValue(v) {
      assert Quoted(v)[1..|Quoted(v)| - 1] == v;
    }
  }

  // ---- A written key.

  /** The text of a key that the search for its '=' does not stop in. */
  ghost predicate Passes(w: string) {
    && w != "" && w[0] !in SPACES && w[|w| - 1] !in SPACES && Free(w, NEWLINES)
    && (w[0] == '"' ==> KeyScan(w) < |w|)
    && Free(w[KeyScan(w)..], {'='})
  }

  lemma ScanStays(w: string, t: string)
    requires w != "" && Free(w, NEWLINES) && (w[0] == '"' ==> KeyScan(w) < |w|)
    ensures KeyScan(w + t) == KeyScan(w) && (w[0] == '"' ==> w[KeyScan(w)] == '"')
  {
    if w[0] == '"' {
      var n := Find(w[1..], QUOTE_ENDS);
      assert w == w[..1] + w[1..] && w[1..] == w[1..][..n] + w[1..][n..];
      assert (w + t)[1..] == w[1..][..n] + (w[1..][n..] + t);
      FindAt(w[1..][..n], w[1..][n..] + t, QUOTE_ENDS);
      assert w[1..][n] == w[1 + n];
    }
  }

  lemma FoundKey(u: string, q: nat, e: nat)
    requires u != "" && u[0] !in SPACES && q == KeyScan(u) && (u[0] == '"' ==> q < |u| && u[q] == '"')
    requires e == q + Find(u[q..], KEY_ENDS) && 0 < e < |u| && u[e] == '='
    ensures FindKey(u) == ValueAt(Unquote(TrimEnd(u[..e])), u[e + 1..])
  {
    hide Find, KeyScan, Unquote, TrimEnd;
  }

  /** What is in front of the '=' and what is behind it. */
  lemma ScanKey(w: string, t: string)
    requires Passes(w)
    ensures FindKey(w + (" =" + t)) == ValueAt(Unquote(w), t)
  {
    hide *;
    var u := w + (" =" + t);
    var f := ScanParts(w, t);
    var q := KeyScan(w);
    Sliced(w, t, q);
    assert u[q..] == f + ("=" + t);
    FoundKey(u, q, |w| + 1);
  }

  lemma ScanParts(w: string, t: string) returns (f: string)
    requires Passes(w)
    ensures w != "" && w[0] !in SPACES && KeyScan(w) <= |w| && (w[0] == '"' ==> KeyScan(w) < |w| && w[KeyScan(w)] == '"')
    ensures f == w[KeyScan(w)..] + " " && Find(f + ("=" + t), KEY_ENDS) == |f|
    ensures KeyScan(w + (" =" + t)) == KeyScan(w) && TrimEnd(w + " ") == w
  {
    hide KeyScan, TrimEnd, Find, Free;
    ScanStays(w, " =" + t);
    var q := KeyScan(w);
    FreeParts(w, q, NEWLINES);
    f := w[q..] + " ";
    BlankBehind(w[q..]);
    FindAt(f, "=" + t, KEY_ENDS);
    TrimAt(w, " ");
  }

  lemma BlankBehind(s: string)
    requires Free(s, {'='}) && Free(s, NEWLINES)
    ensures Free(s + " ", KEY_ENDS)
  {
  }

  lemma Sliced(w: string, t: string, q: nat)
    requires q <= |w| && w != ""
    ensures var u := w + (" =" + t); var e := |w| + 1;
      && u != "" && u[0] == w[0] && |u| == e + 1 + |t| && u[e] == '=' && u[..e] == w + " " && u[e + 1..] == t
      && u[q..] == (w[q..] + " ") + ("=" + t) && (q < |w| ==> u[q] == w[q])
  {
  }

  lemma Layout(key: string, value: string, rest: string)
    ensures Line(key, value) + rest == KeyText(key) + (" =" + (" " + ValueText(value) + "\r\n" + rest))
  {
    var k, v := KeyText(key), ValueText(value);
    assert Line(key, value) + rest == k + ((" = " + v + "\r\n") + rest);
    assert (" = " + v + "\r\n") + rest == " =" + (" " + v + "\r\n" + rest);
  }

  lemma OkPasses(k: string)
    requires KeyReads(k)
    ensures Passes(KeyText(k)) && Unquote(KeyText(k)) == k && KeyText(k)[0] !in COMMENTS && KeyText(k)[0] != '['
  {
    hide Passes;
    if IsQuotedKey(k) {
      QuotedPasses(k);
    } else {
      PlainPasses(k);
    }
  }

  lemma QuotedPasses(k: string)
    requires k != "" && Free(k, NEWLINES) && Free(k[Find(k, {'"'})..], {'='})
    ensures Passes(Quoted(k)) && Unquote(Quoted(k)) == k
  {
    hide Find;
    var w := Quoted(k);
    var n := QuotedScan(k, "");
    assert w[1..|w| - 1] == k;
    assert w + "" == w && w[1 + n..] == k[n..] + "\"";
  }

  /** The search in a quoted key goes to the first quote of the key itself, or to the closing one. */
  lemma QuotedScan(k: string, t: string) returns (n: nat)
    requires Free(k, NEWLINES)
    ensures n == Find(k, {'"'}) && KeyScan(Quoted(k) + t) == 1 + n
  {
    n := Find(k, {'"'});
    var u := Quoted(k) + t;
    FreeBefore(k, {'"'});
    FreeParts(k, n, NEWLINES);
    hide Find;
    assert u[1..] == k[..n] + (k[n..] + ("\"" + t));
    assert Free(k[..n], QUOTE_ENDS);
    assert (k[n..] + ("\"" + t))[0] == '"';
    FindAt(k[..n], k[n..] + ("\"" + t), QUOTE_ENDS);
  }

  lemma PlainPasses(k: string)
    requires KeyReads(k) && !IsQuotedKey(k)
    ensures Passes(k) && Unquote(k) == k
  {
    hide Find, KeyScan;
    FreeParts(k, KeyScan(k), NEWLINES);
    NoEquals(k);
    NoEqualsBehind(k, KeyScan(k));
    if k[0] == '"' {
      QuoteInside(k);
    }
  }

  lemma FromStart(u: string)
    requires u != "" && u[0] !in SPACES && u[0] !in COMMENTS && u[0] != '['
    ensures FindEntry(u) == FindKey(u)
  {
    assert Skip(u, SPACES) == 0;
    assert u[0..] == u;
  }

  /** A line is read back. */
  lemma ReadsBack(key: string, value: string, rest: string)
    requires KeyReads(key) && ValueReads(value)
    ensures FindEntry(Line(key, value) + rest) == Found(KeyLine(key, value), rest)
  {
    OkPasses(key);
    Layout(key, value, rest);
    ScanKey(KeyText(key), " " + ValueText(value) + "\r\n" + rest);
    ReadValue(key, value, rest);
    hide *;
    var u := Line(key, value) + rest;
    StartsWith(KeyText(key), " =" + (" " + ValueText(value) + "\r\n" + rest));
    FromStart(u);
  }

  lemma StartsWith(w: string, t: string)
    requires w != ""
    ensures (w + t)[0] == w[0]
  {
  }

  // ---- And only what is so written is read back.

  /** What is found never has a line break in it. */
  ghost predicate OnOneLine(f: Found) {
    f.Found? && f.item.KeyLine? ==> Free(f.item.key, NEWLINES) && Free(f.item.value, NEWLINES)
  }

  lemma {:induction false} FoundOnOneLine(t: string)
    ensures OnOneLine(FindEntry(t))
    decreases |t|, 1
  {
    hide OnOneLine, Find, FindKey;
    var u := t[Skip(t, SPACES)..];
    if u != "" {
      if u[0] in COMMENTS {
        FoundOnOneLine(u[Find(u, NEWLINES)..]);
      } else if u[0] != '[' {
        KeyOnOneLine(u);
      }
    }
    NoKeyLine(FindEntry(t));
  }

  lemma NoKeyLine(f: Found)
    ensures (f.Found? && f.item.KeyLine?) || OnOneLine(f)
  {
  }

  lemma {:induction false} KeyOnOneLine(u: string)
    requires u != "" && u[0] !in SPACES
    ensures OnOneLine(FindKey(u))
    decreases |u|, 0
  {
    hide OnOneLine, Find, KeyScan, ValueAt, Unquote, TrimEnd, FindEntry;
    var q := KeyScan(u);
    if u[0] == '"' && (q == |u| || u[q] != '"') {
      FoundOnOneLine(u[q..]);
    } else {
      var e := q + Find(u[q..], KEY_ENDS);
      if e == |u| || u[e] != '=' {
        FoundOnOneLine(u[e..]);
      } else if e == 0 {
        FoundOnOneLine(u[Find(u, NEWLINES)..]);
      } else {
        ScanFree(u, q, e);
        ValueOnOneLine(Unquote(TrimEnd(u[..e])), u[e + 1..]);
      }
    }
  }

  lemma CutFree(s: string, stops: set<char>)
    requires Free(s, stops)
    ensures Free(Unquote(TrimEnd(s)), stops)
  {
    var t := TrimEnd(s);
    assert t == s[..|t|];
    FreeParts(s, |t|, stops);
    if InQuotes(t) {
      FreeParts(t, |t| - 1, stops);
      FreeParts(t[..|t| - 1], 1, stops);
      assert t[1..|t| - 1] == t[..|t| - 1][1..];
    }
  }

  lemma ScanFree(u: string, q: nat, e: nat)
    requires u != "" && u[0] !in SPACES && q == KeyScan(u) && e == q + Find(u[q..], KEY_ENDS)
    ensures Free(Unquote(TrimEnd(u[..e])), NEWLINES)
  {
    forall i | 0 <= i < e ensures u[i] !in NEWLINES {
      if i < q {
        if i > 0 {
          assert u[i] == u[1..][i - 1];
        }
      } else {
        assert u[i] == u[q..][i - q];
      }
    }
    CutFree(u[..e], NEWLINES);
  }

  lemma ValueOnOneLine(key: string, w: string)
    requires Free(key, NEWLINES)
    ensures OnOneLine(ValueAt(key, w))
  {
    var x := w[Skip(w, BLANKS)..];
    FreeBefore(x, NEWLINES);
    CutFree(x[..Find(x, NEWLINES)], NEWLINES);
  }

  /** Blanks and empty lines in front do not matter. */
  lemma SpacesBefore(s: string, t: string)
    requires forall i :: 0 <= i < |s| ==> s[i] in SPACES
    ensures FindEntry(s + t) == FindEntry(t)
  {
    hide FindFrom, Skip;
    var n := Skip(t, SPACES);
    var front := s + t[..n];
    assert s + t == front + t[n..];
    assert forall i :: 0 <= i < |front| ==> front[i] in SPACES;
    if t[n..] != "" {
      assert t[n..][0] == t[n];
    }
    SkipAt(front, t[n..], SPACES);
  }

  /** Nothing is found whose end is where the search began. */
  lemma PastTheEnd(rest: string)
    ensures FindEntry("\r\n" + rest).Found? ==> |FindEntry("\r\n" + rest).rest| < |rest|
  {
    SpacesBefore("\r\n", rest);
  }

  /** The rest of a line without line breaks in it. */
  lemma LineRest(s: string, rest: string)
    requires Free(s, NEWLINES)
    ensures Find(s + ("\r\n" + rest), NEWLINES) == |s| && (s + ("\r\n" + rest))[|s|..] == "\r\n" + rest
  {
    FindAt(s, "\r\n" + rest, NEWLINES);
  }

  lemma OneLine(key: string, value: string, rest: string)
    requires Free(key, NEWLINES) && Free(value, NEWLINES)
    ensures var s := KeyText(key) + " = " + ValueText(value); Free(s, NEWLINES) && Line(key, value) + rest == s + ("\r\n" + rest)
  {
  }

  /** A line reads back if and only if its key and its value are of the kind that can be written. */
  lemma LineReadsIff(key: string, value: string, rest: string)
    ensures FindEntry(Line(key, value) + rest) == Found(KeyLine(key, value), rest) <==> KeyReads(key) && ValueReads(value)
  {
    if KeyReads(key) && ValueReads(value) {
      ReadsBack(key, value, rest);
    } else if FindEntry(Line(key, value) + rest) == Found(KeyLine(key, value), rest) {
      FoundOnOneLine(Line(key, value) + rest);
      if KeyReads(key) {
        BadValue(key, value, rest);
      } else {
        BadKey(key, value, rest);
      }
    }
  }

  lemma BadValue(key: string, value: string, rest: string)
    requires KeyReads(key) && Free(value, NEWLINES) && InQuotes(value)
    ensures FindEntry(Line(key, value) + rest) != Found(KeyLine(key, value), rest)
  {
    OkPasses(key);
    Layout(key, value, rest);
    ScanKey(KeyText(key), " " + ValueText(value) + "\r\n" + rest);
    ReadValue(key, value, rest);
    StartsWith(KeyText(key), " =" + (" " + ValueText(value) + "\r\n" + rest));
    FromStart(Line(key, value) + rest);
    assert |Unquote(value)| < |value|;
  }

  lemma BadKey(key: string, value: string, rest: string)
    requires !KeyReads(key) && Free(key, NEWLINES) && Free(value, NEWLINES)
    ensures FindEntry(Line(key, value) + rest) != Found(KeyLine(key, value), rest)
  {
    hide FindEntry, FindKey, Find, Passes;
    if key == "" {
      EmptyKey(value, rest);
    } else if IsQuotedKey(key) {
      EarlyEquals(key, value, rest);
    } else if key[0] in COMMENTS {
      CommentKey(key, value, rest);
    } else if '"' in key[1..] {
      StrippedKey(key, value, rest);
    } else {
      OpenQuote(key, value, rest);
    }
  }

  lemma EmptyKey(value: string, rest: string)
    requires Free(value, NEWLINES)
    ensures FindEntry(Line("", value) + rest) != Found(KeyLine("", value), rest)
  {
    hide FindEntry, FindKey, Find, ValueText, Free;
    OneLine("", value, rest);
    FreeTail(value);
    var s := "= " + ValueText(value);
    var u := s + ("\r\n" + rest);
    assert Line("", value) + rest == " " + u;
    SpacesBefore(" ", u);
    FromStart(u);
    EqualsFirst(u);
    LineRest(s, rest);
    PastTheEnd(rest);
  }

  lemma FreeTail(value: string)
    requires Free(value, NEWLINES)
    ensures Free("= " + ValueText(value), NEWLINES)
  {
  }

  lemma EqualsFirst(u: string)
    requires u != "" && u[0] == '='
    ensures FindKey(u) == FindEntry(u[Find(u, NEWLINES)..])
  {
    hide FindEntry;
    assert u[0..] == u;
    assert Find(u, KEY_ENDS) == 0;
  }

  lemma CommentKey(key: string, value: string, rest: string)
    requires key != "" && !IsQuotedKey(key) && key[0] in COMMENTS && Free(key, NEWLINES) && Free(value, NEWLINES)
    ensures FindEntry(Line(key, value) + rest) != Found(KeyLine(key, value), rest)
  {
    OneLine(key, value, rest);
    var s := KeyText(key) + " = " + ValueText(value);
    LineRest(s, rest);
    PastTheEnd(rest);
    FromComment(s + ("\r\n" + rest));
  }

  lemma FromComment(u: string)
    requires u != "" && u[0] in COMMENTS
    ensures FindEntry(u) == FindEntry(u[Find(u, NEWLINES)..])
  {
    assert Skip(u, SPACES) == 0;
    assert u[0..] == u;
  }

  /** A key that begins and ends with a quote loses both. */
  lemma StrippedKey(key: string, value: string, rest: string)
    requires !KeyReads(key) && key != "" && !IsQuotedKey(key) && key[0] !in COMMENTS && '"' in key[1..]
    requires Free(key, NEWLINES) && Free(value, NEWLINES)
    ensures FindEntry(Line(key, value) + rest) != Found(KeyLine(key, value), rest)
  {
    hide FindEntry, FindKey, Find, Free, Passes, ValueAt, Line, TrimEnd;
    PlainScans(key);
    Layout(key, value, rest);
    ScanKey(key, " " + ValueText(value) + "\r\n" + rest);
    ReadValue(Unquote(key), value, rest);
    StartsWith(key, " =" + (" " + ValueText(value) + "\r\n" + rest));
    FromStart(Line(key, value) + rest);
    assert |Unquote(key)| < |key|;
  }

  lemma PlainScans(k: string)
    requires k != "" && !IsQuotedKey(k) && Free(k, NEWLINES) && '"' in k[1..]
    ensures Passes(k)
  {
    hide Find, KeyScan;
    FreeParts(k, KeyScan(k), NEWLINES);
    QuoteInside(k);
    NoEquals(k);
    NoEqualsBehind(k, KeyScan(k));
  }

  lemma QuoteInside(k: string)
    requires k != "" && '"' in k[1..]
    ensures k[0] == '"' ==> KeyScan(k) < |k|
  {
    hide Find;
    var i :| 0 <= i < |k[1..]| && k[1..][i] == '"';
    assert Find(k[1..], QUOTE_ENDS) <= i;
  }

  lemma NoEqualsBehind(k: string, q: nat)
    requires '=' !in k && q <= |k|
    ensures Free(k[q..], {'='})
  {
    forall i | 0 <= i < |k[q..]| ensures k[q..][i] !in {'='} {
      assert k[q..][i] == k[q + i] && k[q + i] in k;
    }
  }

  /** Where an opening quote is not closed in the key, the search goes on in the value; what is found there,
      if anything, has an '=' in it. */
  lemma OpenQuote(key: string, value: string, rest: string)
    requires key != "" && !IsQuotedKey(key) && key[0] == '"' && '"' !in key[1..]
    requires Free(key, NEWLINES) && Free(value, NEWLINES)
    ensures FindEntry(Line(key, value) + rest) != Found(KeyLine(key, value), rest)
  {
    hide FindEntry, FindKey, Find, ValueText, Free, KeyScan, Unquote, TrimEnd, Line;
    OneLine(key, value, rest);
    var s := key + " = " + ValueText(value);
    var end := "\r\n" + rest;
    var u := s + end;
    FromStart(u);
    PastTheEnd(rest);
    PlainLine(key, value);
    NoEquals(key);
    OpenResult(key, ValueText(value), end);
  }

  lemma OpenResult(key: string, v: string, end: string)
    requires key != "" && key[0] == '"' && '"' !in key[1..] && Free(key, NEWLINES) && Free(v, NEWLINES)
    requires |end| >= 2 && end[0] == '\r'
    ensures var f := FindKey((key + " = " + v) + end);
      f == FindEntry(end) || (f.Found? && f.item.KeyLine? && '=' in f.item.key)
  {
    hide *;
    var s := key + " = " + v;
    OpenScan(key, v, end);
    AllFree(key, v);
    LineEnd(s, end);
    var q := KeyScan(s + end);
    if q < |s| {
      ScanEnd(s, end, q);
    }
    OpenCases(s + end, |key| + 1, |s|, end);
  }

  lemma LineEnd(s: string, end: string)
    requires |end| >= 2 && end[0] == '\r'
    ensures |s + end| == |s| + |end| && (s + end)[|s|] == '\r' && (s + end)[|s|..] == end
  {
  }

  lemma OpenCases(u: string, i: nat, m: nat, end: string)
    requires u != "" && u[0] == '"' && m < |u| && u[m] == '\r' && u[m..] == end
    requires 0 < i < KeyScan(u) <= m && u[i] == '='
    requires u[KeyScan(u)] == '"' || KeyScan(u) == m
    requires KeyScan(u) < m ==> var e := KeyScan(u) + Find(u[KeyScan(u)..], KEY_ENDS); e <= m && (u[e] == '=' || e == m)
    ensures var f := FindKey(u); f == FindEntry(end) || (f.Found? && f.item.KeyLine? && '=' in f.item.key)
  {
    hide FindEntry, FindKey, Find, KeyScan, Unquote, TrimEnd, ValueAt;
    var q := KeyScan(u);
    if q < m {
      var e := q + Find(u[q..], KEY_ENDS);
      if u[e] == '=' {
        assert u[q..][0] == '"';
        FoundKey(u, q, e);
        ValueIs(Unquote(TrimEnd(u[..e])), u[e + 1..]);
        HasEquals(u, i, q, e);
      } else {
        NoneFound(u, q, e);
      }
    } else {
      NoQuote(u, q);
    }
  }

  lemma ValueIs(key: string, w: string)
    ensures var f := ValueAt(key, w); f.Found? && f.item.KeyLine? && f.item.key == key
  {
    hide Find, Skip, Unquote, TrimEnd;
  }

  lemma AllFree(key: string, v: string)
    requires Free(key, NEWLINES) && Free(v, NEWLINES)
    ensures Free(key + " = " + v, NEWLINES)
  {
  }

  lemma PlainLine(key: string, value: string)
    requires Free(value, NEWLINES)
    ensures Free(ValueText(value), NEWLINES)
  {
  }

  lemma NoEquals(key: string)
    requires key != "" && !IsQuotedKey(key)
    ensures '=' !in key
  {
  }

  lemma NoneFound(u: string, q: nat, e: nat)
    requires u != "" && u[0] !in SPACES && q == KeyScan(u) && (u[0] == '"' ==> q < |u| && u[q] == '"')
    requires e == q + Find(u[q..], KEY_ENDS) && (e == |u| || u[e] != '=')
    ensures FindKey(u) == FindEntry(u[e..])
  {
    hide FindEntry, Find, KeyScan;
  }

  lemma NoQuote(u: string, q: nat)
    requires u != "" && u[0] == '"' && q == KeyScan(u) && (q == |u| || u[q] != '"')
    ensures FindKey(u) == FindEntry(u[q..])
  {
    hide FindEntry, Find, KeyScan;
  }

  lemma OpenScan(key: string, v: string, end: string)
    requires key != "" && key[0] == '"' && '"' !in key[1..] && Free(key, NEWLINES) && Free(v, NEWLINES)
    requires |end| >= 2 && end[0] == '\r'
    ensures var s := key + " = " + v; var u := s + end; var q := KeyScan(u);
      |key| + 3 <= q <= |s| && (u[q] == '"' || q == |s|) && u[|key| + 1] == '=' && u[0] == '"'
  {
    var s := key + " = " + v;
    var u := s + end;
    var stops := QUOTE_ENDS;
    var n := Find(u[1..], stops);
    assert u[1..][|s| - 1] == '\r';
    assert n <= |s| - 1;
    forall i | 0 <= i < |key| + 2 ensures u[1..][i] !in stops {
      if i < |key| - 1 {
        assert u[1..][i] == key[1..][i];
      }
    }
    assert n >= |key| + 2;
    if n < |s| - 1 {
      assert u[1..][n] == s[1 + n];
      assert Free(s, NEWLINES);
    }
  }

  lemma ScanEnd(s: string, end: string, q: nat)
    requires q < |s| && Free(s, NEWLINES) && |end| >= 2 && end[0] == '\r'
    ensures var u := s + end; var e := q + Find(u[q..], KEY_ENDS); e <= |s| && (u[e] == '=' || e == |s|)
  {
    var u := s + end;
    assert u[q..][|s| - q] == '\r';
    var n := Find(u[q..], KEY_ENDS);
    assert u[q..][n] == u[q + n];
  }

  lemma HasEquals(u: string, i: nat, q: nat, e: nat)
    requires 0 < i < q < e <= |u| && u[i] == '=' && u[q] == '"' && u[0] == '"'
    ensures '=' in Unquote(TrimEnd(u[..e]))
  {
    KeepsUpTo(u[..e], q);
    var t := TrimEnd(u[..e]);
    assert t[i] == '=';
    assert InQuotes(t) ==> Unquote(t)[i - 1] == '=';
    assert !InQuotes(t) ==> Unquote(t)[i] == '=';
  }

  lemma {:induction false} KeepsUpTo(s: string, q: nat)
    requires q < |s| && s[q] !in SPACES
    ensures q < |TrimEnd(s)| && TrimEnd(s) == s[..|TrimEnd(s)|]
  {
    if s[|s| - 1] in SPACES {
      KeepsUpTo(s[..|s| - 1], q);
    }
  }

  /** In a quoted key, an '=' behind its first quote ends it. */
  lemma EarlyEquals(key: string, value: string, rest: string)
    requires IsQuotedKey(key) && Free(key, NEWLINES) && !Free(key[Find(key, {'"'})..], {'='})
    ensures FindEntry(Line(key, value) + rest) != Found(KeyLine(key, value), rest)
  {
    hide FindEntry, FindKey, Find, ValueText, Free, KeyScan, Unquote, TrimEnd, Line;
    var t := " =" + (" " + ValueText(value) + "\r\n" + rest);
    Layout(key, value, rest);
    var u := Quoted(key) + t;
    FromStart(u);
    var n := QuotedScan(key, t);
    var m := Find(key[n..], KEY_ENDS);
    EqualsAt(key, n);
    ShiftFind(key, t, n, m);
    FoundKey(u, 1 + n, 1 + n + m);
    ShorterKey(key, u[..1 + n + m], n, m);
  }

  lemma EqualsAt(key: string, n: nat)
    requires n <= |key| && Free(key, NEWLINES) && !Free(key[n..], {'='})
    ensures var m := Find(key[n..], KEY_ENDS); n + m < |key| && key[n + m] == '='
  {
    var i :| 0 <= i < |key[n..]| && key[n..][i] in {'='};
    var m := Find(key[n..], KEY_ENDS);
    assert m <= i;
    assert key[n..][m] == key[n + m];
  }

  lemma ShiftFind(key: string, t: string, n: nat, m: nat)
    requires n < |key| && m == Find(key[n..], KEY_ENDS) && n + m < |key| && key[n + m] == '='
    requires n == Find(key, {'"'})
    ensures var u := Quoted(key) + t;
      && Find(u[1 + n..], KEY_ENDS) == m && u[1 + n + m] == '=' && u[1 + n] == '"' && u[0] == '"'
      && u[..1 + n + m] == "\"" + key[..n + m]
  {
    hide Find, Free;
    var u := Quoted(key) + t;
    var k := key[n..];
    assert u[1 + n..] == k[..m] + (k[m..] + ("\"" + t));
    FreeBefore(k, KEY_ENDS);
    assert k[m..][0] == '=';
    FindAt(k[..m], k[m..] + ("\"" + t), KEY_ENDS);
    QuotedParts(key, t, n, m);
  }

  lemma QuotedParts(key: string, t: string, n: nat, m: nat)
    requires n + m < |key|
    ensures var u := Quoted(key) + t;
      && u[1 + n + m] == key[n + m] && u[1 + n] == key[n] && u[0] == '"' && u[..1 + n + m] == "\"" + key[..n + m]
  {
  }

  lemma ShorterKey(key: string, front: string, n: nat, m: nat)
    requires n + m < |key| && key[n + m] == '=' && front == "\"" + key[..n + m]
    requires n == Find(key, {'"'}) && m == Find(key[n..], KEY_ENDS)
    ensures Unquote(TrimEnd(front)) != key
  {
  }

  // ---- Section names.

  lemma FoundName(u: string, v: string, n: nat)
    requires u != "" && u[0] == '[' && v == u[1 + Skip(u[1..], SPACES)..] && n == Find(v, NAME_ENDS)
    ensures FindEntry(u) == if n == |v| || v[n] != ']' then Unclosed
        else Found(SectionLine(TrimEnd(v[..n])), v[n + 1..][Find(v[n + 1..], NEWLINES)..])
  {
    hide *;
    FromName(u);
    SectionParts(v);
  }

  lemma FromName(u: string)
    requires u != "" && u[0] == '['
    ensures FindEntry(u) == FindSection(u[1 + Skip(u[1..], SPACES)..])
  {
    hide Find, FindSection, FindKey;
    assert Skip(u, SPACES) == 0;
    assert u[0..] == u;
  }

  lemma SectionParts(v: string)
    ensures var n := Find(v, NAME_ENDS);
      FindSection(v) == if n == |v| || v[n] != ']' then Unclosed
        else Found(SectionLine(TrimEnd(v[..n])), v[n + 1..][Find(v[n + 1..], NEWLINES)..])
  {
    hide Find, TrimEnd;
  }

  /** A section line reads back if and only if its name has no line break, no bracket and no blanks around
      it. */
  lemma HeaderReadsIff(name: string, rest: string)
    requires name != ""
    ensures FindEntry(Header(name) + rest) == Found(SectionLine(name), "\r\n" + rest) <==> NameReads(name)
  {
    hide *;
    var u := Header(name) + rest;
    HeaderText(name, rest);
    if NameReads(name) {
      HeaderFound(u, name, "\r\n" + rest);
    } else {
      HeaderLost(u, name, "\r\n" + rest);
    }
  }

  lemma HeaderText(name: string, rest: string)
    ensures var u := Header(name) + rest; u != "" && u[0] == '[' && u[1..] == name + ("]" + ("\r\n" + rest))
    ensures var end := "\r\n" + rest; end != "" && end[0] in NEWLINES
  {
    assert Header(name) + rest == "[" + (name + ("]" + ("\r\n" + rest)));
  }

  lemma HeaderFound(u: string, name: string, end: string)
    requires NameReads(name) && u != "" && u[0] == '[' && u[1..] == name + ("]" + end) && end != "" && end[0] in NEWLINES
    ensures FindEntry(u) == Found(SectionLine(name), end)
  {
    hide *;
    var v := u[1..];
    ReadName(name, end);
    assert v[0..] == v && end[0..] == end;
    assert u[1 + Skip(v, SPACES)..] == v;
    FoundName(u, v, Find(v, NAME_ENDS));
  }

  lemma HeaderLost(u: string, name: string, end: string)
    requires name != "" && !NameReads(name) && u != "" && u[0] == '['
    ensures FindEntry(u) != Found(SectionLine(name), end)
  {
    hide *;
    NoBlankLeft(u[1..]);
    var v := u[1 + Skip(u[1..], SPACES)..];
    assert u[1..][Skip(u[1..], SPACES)..] == v;
    FoundName(u, v, Find(v, NAME_ENDS));
    FoundNameReads(v);
  }

  lemma NoBlankLeft(t: string)
    ensures var v := t[Skip(t, SPACES)..]; v == "" || v[0] !in SPACES
  {
  }

  lemma ReadName(name: string, end: string)
    requires NameReads(name) && end != "" && end[0] in NEWLINES
    ensures var t := name + ("]" + end); var n := Find(t, NAME_ENDS);
      && Skip(t, SPACES) == 0 && n < |t| && t[n] == ']' && TrimEnd(t[..n]) == name && t[n + 1..] == end && Find(end, NEWLINES) == 0
  {
    var t := name + ("]" + end);
    FindAt(name, "]" + end, NAME_ENDS);
    assert t[0] == name[0];
    assert t[..|name|] == name;
    assert t[|name|] == ']' && t[|name| + 1..] == end;
    TrimAt(name, "");
    assert name + "" == name;
  }

  lemma FoundNameReads(v: string)
    requires v == "" || v[0] !in SPACES
    ensures var name := TrimEnd(v[..Find(v, NAME_ENDS)]); name != "" ==> NameReads(name)
  {
    var n := Find(v, NAME_ENDS);
    FreeBefore(v, NAME_ENDS);
    var name := TrimEnd(v[..n]);
    FreeParts(v[..n], |name|, NAME_ENDS);
  }

  // ---- With the NUL that ends the text.

  /** Where neither part has a NUL. */
  lemma CleanFront(s: string, t: string)
    requires Free(s, NULS)
    ensures CString(s + t) == s + CString(t)
  {
    hide Find;
    FindSkips(s, t, NULS);
    assert (s + t)[..|s| + Find(t, NULS)] == s + t[..Find(t, NULS)];
  }

  lemma CleanText(t: string)
    requires Free(t, NULS)
    ensures CString(t) == t
  {
    FindAt(t, "", NULS);
    assert t + "" == t;
  }

  lemma CStringFree(t: string)
    ensures Free(CString(t), NULS)
  {
    FreeBefore(t, NULS);
  }

  /** What is found has only characters of the text. */
  ghost predicate FoundFree(f: Found, stops: set<char>) {
    f.Found? ==>
      match f.item
      case SectionLine(name) => Free(name, stops)
      case KeyLine(key, value) => Free(key, stops) && Free(value, stops)
  }

  lemma FreeSlices(s: string, n: nat, stops: set<char>)
    requires n <= |s| && Free(s, stops)
    ensures Free(s[..n], stops) && Free(s[n..], stops)
  {
  }

  lemma {:induction false} EntryFree(t: string, stops: set<char>)
    requires Free(t, stops)
    ensures FoundFree(FindEntry(t), stops)
    decreases |t|, 1
  {
    hide FoundFree, Find, FindKey, FindSection, Free;
    FreeSlices(t, Skip(t, SPACES), stops);
    var u := t[Skip(t, SPACES)..];
    if u == "" {
      NothingFree(stops);
    } else if u[0] in COMMENTS {
      FreeSlices(u, Find(u, NEWLINES), stops);
      EntryFree(u[Find(u, NEWLINES)..], stops);
    } else if u[0] == '[' {
      FreeSlices(u, 1 + Skip(u[1..], SPACES), stops);
      SectionFree(u[1 + Skip(u[1..], SPACES)..], stops);
    } else {
      KeyFree(u, stops);
    }
  }

  lemma NothingFree(stops: set<char>)
    ensures FoundFree(NoMore, stops)
  {
  }

  lemma SectionFree(v: string, stops: set<char>)
    requires Free(v, stops)
    ensures FoundFree(FindSection(v), stops)
  {
    hide Find, Free;
    var n := Find(v, NAME_ENDS);
    FreeSlices(v, n, stops);
    FreeSlices(v[..n], |TrimEnd(v[..n])|, stops);
  }

  lemma {:induction false} KeyFree(u: string, stops: set<char>)
    requires u != "" && u[0] !in SPACES && Free(u, stops)
    ensures FoundFree(FindKey(u), stops)
    decreases |u|, 0
  {
    hide FoundFree, Find, KeyScan, ValueAt, Unquote, TrimEnd, FindEntry, Free;
    var q := KeyScan(u);
    FreeSlices(u, q, stops);
    if u[0] == '"' && (q == |u| || u[q] != '"') {
      EntryFree(u[q..], stops);
    } else {
      var e := q + Find(u[q..], KEY_ENDS);
      FreeSlices(u, e, stops);
      if e == |u| || u[e] != '=' {
        EntryFree(u[e..], stops);
      } else if e == 0 {
        FreeSlices(u, Find(u, NEWLINES), stops);
        EntryFree(u[Find(u, NEWLINES)..], stops);
      } else {
        CutFree(u[..e], stops);
        FreeSlices(u, e + 1, stops);
        ValueFree(Unquote(TrimEnd(u[..e])), u[e + 1..], stops);
      }
    }
  }

  lemma ValueFree(key: string, w: string, stops: set<char>)
    requires Free(key, stops) && Free(w, stops)
    ensures FoundFree(ValueAt(key, w), stops)
  {
    hide Find, Free, Skip, Unquote, TrimEnd;
    FreeSlices(w, Skip(w, BLANKS), stops);
    var x := w[Skip(w, BLANKS)..];
    FreeSlices(x, Find(x, NEWLINES), stops);
    CutFree(x[..Find(x, NEWLINES)], stops);
  }

  lemma CleanLine(key: string, value: string)
    requires Free(key, NULS) && Free(value, NULS)
    ensures Free(Line(key, value), NULS)
  {
  }

  lemma CleanHeader(name: string)
    requires Free(name, NULS)
    ensures Free(Header(name), NULS)
  {
  }

  /** A written line is read back, and the loader goes on behind it, if and only if its key and its value
      are of the kind that can be written. */
  lemma ReadsBackIff(key: string, value: string, rest: string)
    ensures FindEntry(CString(Line(key, value) + rest)) == Found(KeyLine(key, value), CString(rest)) <==> KeyOk(key) && ValueOk(value)
  {
    hide FindEntry, Free, Line, KeyReads, ValueReads, CString;
    if Free(key, NULS) && Free(value, NULS) {
      CleanLine(key, value);
      CleanFront(Line(key, value), rest);
      LineReadsIff(key, value, CString(rest));
    } else {
      CStringFree(Line(key, value) + rest);
      EntryFree(CString(Line(key, value) + rest), NULS);
    }
  }

  /** The same for the line of a section. */
  lemma HeaderReadsBackIff(name: string, rest: string)
    requires name != ""
    ensures FindEntry(CString(Header(name) + rest)) == Found(SectionLine(name), "\r\n" + CString(rest)) <==> NameOk(name)
  {
    hide FindEntry, Free, Header, NameReads, CString;
    if Free(name, NULS) {
      CleanHeader(name);
      CleanFront(Header(name), rest);
      HeaderReadsIff(name, CString(rest));
    } else {
      CStringFree(Header(name) + rest);
      EntryFree(CString(Header(name) + rest), NULS);
    }
  }

  // ---- The search on a position in the text.

  method SkipFrom(text: string, start: nat, kind: set<char>) returns (pos: nat)
    requires start <= |text|
    ensures pos == start + Skip(text[start..], kind) && pos <= |text|
  {
    pos := start;
    while pos < |text| && text[pos] in kind
      invariant start <= pos <= |text|
      invariant forall i :: start <= i < pos ==> text[i] in kind
    {
      pos := pos + 1;
    }
    var n := pos - start;
    assert text[start..] == text[start..pos] + text[pos..];
    SkipAt(text[start..pos], text[pos..], kind);
  }

  method FindIn(text: string, start: nat, stops: set<char>) returns (pos: nat)
    requires start <= |text|
    ensures pos == start + Find(text[start..], stops) && pos <= |text|
  {
    pos := start;
    while pos < |text| && text[pos] !in stops
      invariant start <= pos <= |text|
      invariant forall i :: start <= i < pos ==> text[i] !in stops
    {
      pos := pos + 1;
    }
    assert text[start..] == text[start..pos] + text[pos..];
    FindAt(text[start..pos], text[pos..], stops);
  }

  /** The text from one position to another without the spaces at its end. */
  method Trimmed(text: string, start: nat, end: nat) returns (s: string)
    requires start <= end <= |text|
    ensures s == TrimEnd(text[start..end])
  {
    var trail := end;
    while trail > start && text[trail - 1] in SPACES
      invariant start <= trail <= end
      invariant TrimEnd(text[start..trail]) == TrimEnd(text[start..end])
    {
      assert text[start..trail][..trail - start - 1] == text[start..trail - 1];
      trail := trail - 1;
    }
    s := text[start..trail];
  }

  lemma Tail(text: string, p: nat, q: nat)
    requires p <= q <= |text|
    ensures text[p..][q - p..] == text[q..] && |text[p..]| == |text| - p
    ensures q < |text| ==> text[p..][q - p] == text[q]
    ensures text[p..][..q - p] == text[p..q]
  {
  }

  /** The next entry at or behind a position; the search starts over on each line that is skipped. */
  method NextEntry(text: string, start: nat) returns (f: Found, pos: nat)
    requires start <= |text|
    ensures f == FindEntry(text[start..])
    ensures f.Found? ==> start < pos <= |text| && f.rest == text[pos..]
  {
    hide FindFrom, FindKey, Find, Skip, KeyScan;
    pos := start;
    while true
      invariant start <= pos <= |text|
      invariant FindEntry(text[pos..]) == FindEntry(text[start..])
      decreases |text| - pos
    {
      var p := SkipFrom(text, pos, SPACES);
      Tail(text, pos, p);
      if p == |text| {
        NothingLeft();
        return NoMore, pos;
      }
      Skipped(text[pos..]);
      if text[p] in COMMENTS {
        pos := FindIn(text, p, NEWLINES);
        Tail(text, p, pos);
        CommentSkipped(text[p..]);
      } else if text[p] == '[' {
        f, pos := SectionAt(text, p);
        return;
      } else {
        KeyHere(text[p..]);
        var next;
        f, next := KeyAt(text, p);
        if f.Found? {
          pos := next;
          return;
        }
        pos := next;
      }
    }
  }

  lemma NothingLeft()
    ensures FindFrom("") == NoMore
  {
  }

  lemma Skipped(t: string)
    ensures var n := Skip(t, SPACES); n < |t| ==> t[n] !in SPACES && t[n..][0] == t[n]
  {
  }

  lemma CommentSkipped(u: string)
    requires u != "" && u[0] in COMMENTS
    ensures FindFrom(u) == FindEntry(u[Find(u, NEWLINES)..]) && Find(u, NEWLINES) > 0
  {
    hide FindEntry;
  }

  lemma KeyHere(u: string)
    requires u != "" && u[0] !in SPACES && u[0] !in COMMENTS && u[0] != '['
    ensures FindFrom(u) == FindKey(u)
  {
    hide FindKey;
  }

  /** One line that is not a comment or a section; with nothing found, the place to go on from. */
  method KeyAt(text: string, p: nat) returns (f: Found, pos: nat)
    requires p < |text| && text[p] !in SPACES
    ensures p < pos <= |text|
    ensures f.Found? ==> f == FindKey(text[p..]) && f.rest == text[pos..]
    ensures !f.Found? ==> FindKey(text[p..]) == FindEntry(text[pos..])
  {
    hide FindEntry, Find, ValueAt, TrimEnd, Unquote, FindKey, KeyScan;
    var q := p;
    if text[p] == '"' {
      q := FindIn(text, p + 1, QUOTE_ENDS);
    }
    ScanIs(text, p, q);
    f := NoMore;
    var e := FindIn(text, q, KEY_ENDS);
    KeyStep(text, p, q, e);
    if text[p] == '"' && (q == |text| || text[q] != '"') {
      return f, q;
    }
    if e == |text| || text[e] != '=' {
      Stopped(text, p, q, e);
      return f, e;
    }
    if e == p {
      pos := FindIn(text, p, NEWLINES);
      Tail(text, p, pos);
      NotAtOnce(text[p..]);
      return f, pos;
    }
    f, pos := EntryAt(text, p, e);
  }

  lemma ScanIs(text: string, p: nat, q: nat)
    requires p < |text| && q == if text[p] == '"' then p + 1 + Find(text[p + 1..], QUOTE_ENDS) else p
    ensures p <= q <= |text| && q == p + KeyScan(text[p..])
  {
    hide Find;
    Tail(text, p, p + 1);
  }

  /** One step of the search, in positions. */
  lemma KeyStep(text: string, p: nat, q: nat, e: nat)
    requires p < |text| && text[p] !in SPACES && p <= q <= e <= |text|
    requires q == p + KeyScan(text[p..]) && e == q + Find(text[q..], KEY_ENDS)
    ensures FindKey(text[p..]) ==
      if text[p] == '"' && (q == |text| || text[q] != '"') then FindEntry(text[q..])
      else if e == |text| || text[e] != '=' then FindEntry(text[e..])
      else if e == p then FindEntry(text[p..][Find(text[p..], NEWLINES)..])
      else ValueAt(Unquote(TrimEnd(text[p..e])), text[e + 1..])
  {
    hide *;
    if text[p] == '"' && (q == |text| || text[q] != '"') {
      QuoteStep(text, p, q);
    } else if e == |text| || text[e] != '=' {
      EndStep(text, p, q, e);
    } else if e == p {
      EqualsStep(text, p);
    } else {
      EntryStep(text, p, q, e);
    }
  }

  lemma QuoteStep(text: string, p: nat, q: nat)
    requires p < |text| && text[p] == '"' && p <= q <= |text| && q == p + KeyScan(text[p..]) && (q == |text| || text[q] != '"')
    ensures FindKey(text[p..]) == FindEntry(text[q..])
  {
    hide FindEntry, FindKey, KeyScan;
    Tail(text, p, q);
    NoQuote(text[p..], q - p);
  }

  lemma EndStep(text: string, p: nat, q: nat, e: nat)
    requires p < |text| && text[p] !in SPACES && p <= q <= e <= |text| && q == p + KeyScan(text[p..])
    requires text[p] == '"' ==> q < |text| && text[q] == '"'
    requires e == q + Find(text[q..], KEY_ENDS) && (e == |text| || text[e] != '=')
    ensures FindKey(text[p..]) == FindEntry(text[e..])
  {
    hide FindEntry, FindKey, KeyScan, Find;
    Tail(text, p, q);
    Tail(text, p, e);
    NoneFound(text[p..], q - p, e - p);
  }

  lemma EqualsStep(text: string, p: nat)
    requires p < |text| && text[p] == '='
    ensures FindKey(text[p..]) == FindEntry(text[p..][Find(text[p..], NEWLINES)..])
  {
    hide FindEntry, FindKey, Find;
    EqualsFirst(text[p..]);
  }

  lemma EntryStep(text: string, p: nat, q: nat, e: nat)
    requires p < |text| && text[p] !in SPACES && p <= q <= e < |text| && q == p + KeyScan(text[p..])
    requires text[p] == '"' ==> q < |text| && text[q] == '"'
    requires e == q + Find(text[q..], KEY_ENDS) && p < e && text[e] == '='
    ensures FindKey(text[p..]) == ValueAt(Unquote(TrimEnd(text[p..e])), text[e + 1..])
  {
    hide FindKey, KeyScan, Find, ValueAt, Unquote, TrimEnd;
    Tail(text, p, q);
    Tail(text, p, e);
    Tail(text, p, e + 1);
    FoundKey(text[p..], q - p, e - p);
  }

  lemma NotAtOnce(u: string)
    requires u != "" && u[0] !in SPACES
    ensures Find(u, NEWLINES) > 0
  {
  }

  lemma Stopped(text: string, p: nat, q: nat, e: nat)
    requires p <= q <= e <= |text| && p < |text| && text[p] !in SPACES
    requires e == q + Find(text[q..], KEY_ENDS) && (e < |text| ==> text[e] != '=')
    ensures p < e
  {
    assert e == q && q < |text| ==> text[q..][0] == text[e];
  }

  method SectionAt(text: string, p: nat) returns (f: Found, pos: nat)
    requires p < |text| && text[p] == '['
    ensures f == FindFrom(text[p..])
    ensures f.Found? ==> p < pos <= |text| && f.rest == text[pos..]
  {
    hide Find, Skip, TrimEnd, FindFrom;
    var s := SkipFrom(text, p + 1, SPACES);
    var n := FindIn(text, s, NAME_ENDS);
    SectionStep(text, p, s, n);
    if n == |text| || text[n] != ']' {
      return Unclosed, p;
    }
    var name := Trimmed(text, s, n);
    pos := FindIn(text, n + 1, NEWLINES);
    Tail(text, n + 1, pos);
    f := Found(SectionLine(name), text[pos..]);
  }

  lemma SectionStep(text: string, p: nat, s: nat, n: nat)
    requires p < s <= n <= |text| && text[p] == '['
    requires s == p + 1 + Skip(text[p + 1..], SPACES) && n == s + Find(text[s..], NAME_ENDS)
    ensures FindFrom(text[p..]) == if n == |text| || text[n] != ']' then Unclosed
      else Found(SectionLine(TrimEnd(text[s..n])), text[n + 1..][Find(text[n + 1..], NEWLINES)..])
  {
    hide Find, Skip, FindSection, FindEntry, FindKey;
    Tail(text, p, p + 1);
    Tail(text, p, s);
    NameStep(text, s, n);
  }

  lemma NameStep(text: string, s: nat, n: nat)
    requires s <= n <= |text| && n == s + Find(text[s..], NAME_ENDS)
    ensures FindSection(text[s..]) == if n == |text| || text[n] != ']' then Unclosed
      else Found(SectionLine(TrimEnd(text[s..n])), text[n + 1..][Find(text[n + 1..], NEWLINES)..])
  {
    hide Find, TrimEnd;
    Tail(text, s, n);
    if n < |text| {
      Tail(text, s, n + 1);
    }
  }

  method EntryAt(text: string, p: nat, e: nat) returns (f: Found, pos: nat)
    requires p < e < |text|
    ensures f == ValueAt(Unquote(TrimEnd(text[p..e])), text[e + 1..])
    ensures f.Found? && p < pos <= |text| && f.rest == text[pos..]
  {
    hide Find, Skip, TrimEnd, Unquote, AfterNewLine, ValueAt;
    var key := Trimmed(text, p, e);
    var v := SkipFrom(text, e + 1, BLANKS);
    var l := FindIn(text, v, NEWLINES);
    ValueStep(text, Unquote(key), e + 1, v, l);
    var value := Trimmed(text, v, l);
    pos := l;
    if pos < |text| {
      pos := if text[pos] == '\r' && pos + 1 < |text| && text[pos + 1] == '\n' then pos + 2 else pos + 1;
    }
    LineBreak(text, l, pos);
    f := Found(KeyLine(Unquote(key), Unquote(value)), text[pos..]);
  }

  lemma ValueStep(text: string, key: string, w: nat, v: nat, l: nat)
    requires w <= v <= l <= |text| && v == w + Skip(text[w..], BLANKS) && l == v + Find(text[v..], NEWLINES)
    ensures ValueAt(key, text[w..]) == Found(KeyLine(key, Unquote(TrimEnd(text[v..l]))), AfterNewLine(text[l..]))
  {
    hide Find, Skip, TrimEnd, Unquote, AfterNewLine;
    Tail(text, w, v);
    Tail(text, v, l);
  }

  lemma LineBreak(text: string, l: nat, pos: nat)
    requires l <= |text|
    requires pos == if l == |text| then l else if text[l] == '\r' && l + 1 < |text| && text[l + 1] == '\n' then l + 2 else l + 1
    ensures AfterNewLine(text[l..]) == text[pos..]
  {
  }
}
