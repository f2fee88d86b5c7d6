/** The JSON text of an environment, read back. */
module EnvJson {
  import opened Wrappers
  import opened Sequences
  import opened Json
  import opened EnvExport

  // ---------- what both texts should say ----------

  function Strings(xs: seq<string>): seq<Json> {
    if xs == [] then [] else [Str(xs[0])] + Strings(xs[1..])
  }

  function PipEntry(ps: seq<string>): Json {
    Obj([Member("pip", Arr(Strings(ps)))])
  }

  /** One string per dependency, in order, and one `pip` object if and only if there is something in it. */
  function Expected(ds: seq<string>, ps: seq<string>): seq<Json> {
    Strings(ds) + (if ps == [] then [] else [PipEntry(ps)])
  }

  predicate AllClean(xs: seq<string>) {
    forall x <- xs :: Clean(x)
  }

  // ---------- reading the JSON text ----------

  /** What follows an item of an array. */
  function ReadRest(s: string): Option<(seq<Json>, string)> {
    var t := SkipWs(s);
    if Head(t, ']') then Some(([], t[1..]))
    else if Head(t, ',') then ReadItems(SkipWs(t[1..]))
    else None
  }

  function Prepend(vs: seq<Json>, r: Option<(seq<Json>, string)>): Option<(seq<Json>, string)> {
    match r
    case None => None
    case Some((ws, rest)) => Some((vs + ws, rest))
  }

  lemma ItemsAre(s: string)
    ensures ReadItems(s) == match ReadValue(s)
                            case None => None
                            case Some((v, rest)) => Prepend([v], ReadRest(rest))
  {
    match ReadValue(s)
    case None =>
    case Some((v, rest)) =>
      assert [v] + [] == [v];
  }

  lemma {:induction false} SkipBlank(ws: string, s: string)
    requires forall c <- ws :: IsWs(c)
    ensures SkipWs(ws + s) == SkipWs(s)
  {
    if ws == "" {
      assert ws + s == s;
    } else {
      assert (ws + s)[1..] == ws[1..] + s;
      SkipBlank(ws[1..], s);
    }
  }

  lemma QuotedIsRead(x: string, rest: string)
    requires Clean(x)
    ensures ReadValue(Quoted(x) + rest) == Some((Str(x), rest))
    ensures SkipWs(Quoted(x) + rest) == Quoted(x) + rest
  {
    assert (Quoted(x) + rest)[1..] == x + "\"" + rest;
    CleanIsRead(x, rest);
  }

  predicate IsIndent(indent: string) {
    forall c <- indent :: IsWs(c)
  }

  lemma ReadRestComma(indent: string, s: string)
    requires IsIndent(indent)
    ensures ReadRest(",\n" + (indent + s)) == ReadItems(SkipWs(s))
  {
    var t := ",\n" + (indent + s);
    assert t[1..] == "\n" + (indent + s);
    SkipBlank("\n", indent + s);
    SkipBlank(indent, s);
  }

  /** A printed list of clean strings is read as its strings, and then whatever follows. */
  lemma {:induction false} ListIsRead(xs: seq<string>, indent: string, tail: string)
    requires xs != [] && AllClean(xs) && IsIndent(indent)
    ensures ReadItems(SkipWs(QuotedList(xs, indent, false) + tail)) == Prepend(Strings(xs), ReadRest(tail))
    decreases |xs|
  {
    var x := xs[0];
    assert x in xs && forall y <- xs[1..] :: y in xs;
    var after := QuotedList(xs[1..], indent, true) + tail;
    var q := Quoted(x) + after;
    assert QuotedList(xs, indent, false) + tail == indent + q;
    SkipBlank(indent, q);
    QuotedIsRead(x, after);
    ItemsAre(q);
    if |xs| == 1 {
      assert after == tail;
      assert Strings(xs) == [Str(x)];
    } else {
      var more := QuotedList(xs[1..], indent, false) + tail;
      CommaFirst(xs[1..], indent, tail);
      assert after == ",\n" + more;
      ReadRestComma("", more);
      assert "" + more == more;
      ListIsRead(xs[1..], indent, tail);
      PrependTwice([Str(x)], Strings(xs[1..]), ReadRest(tail));
    }
  }

  lemma CommaFirst(xs: seq<string>, indent: string, tail: string)
    requires xs != []
    ensures QuotedList(xs, indent, true) + tail == ",\n" + (QuotedList(xs, indent, false) + tail)
  {
  }

  lemma PrependTwice(vs: seq<Json>, ws: seq<Json>, r: Option<(seq<Json>, string)>)
    ensures Prepend(vs, Prepend(ws, r)) == Prepend(vs + ws, r)
  {
    if r.Some? {
      assert vs + ws + r.value.0 == vs + (ws + r.value.0);
    }
  }

  lemma {:induction false} StringsNonEmpty(xs: seq<string>)
    ensures |Strings(xs)| == |xs|
  {
    if xs != [] {
      StringsNonEmpty(xs[1..]);
    }
  }

  lemma ListSkips(xs: seq<string>, indent: string, tail: string)
    requires xs != [] && IsIndent(indent)
    ensures Head(SkipWs(QuotedList(xs, indent, false) + tail), '"')
  {
    var q := Quoted(xs[0]) + (QuotedList(xs[1..], indent, true) + tail);
    assert QuotedList(xs, indent, false) + tail == indent + q;
    SkipBlank(indent, q);
  }

  /** The pip array, up to its closing bracket. */
  lemma PipArrayIsRead(ps: seq<string>, rest: string)
    requires ps != [] && AllClean(ps)
    ensures ReadValue("[\n" + QuotedList(ps, PIP_INDENT, false) + ("\n    ]" + rest))
         == Some((Arr(Strings(ps)), rest))
  {
    var tail := "\n    ]" + rest;
    var list := QuotedList(ps, PIP_INDENT, false) + tail;
    var s := "[\n" + QuotedList(ps, PIP_INDENT, false) + tail;
    assert s[1..] == "\n" + list;
    SkipBlank("\n", list);
    ListSkips(ps, PIP_INDENT, tail);
    ListIsRead(ps, PIP_INDENT, tail);
    assert tail == "\n    " + ("]" + rest);
    SkipBlank("\n    ", "]" + rest);
    assert ("]" + rest)[1..] == rest;
    assert Strings(ps) + [] == Strings(ps);
  }

  /** An object with one member. */
  lemma ObjectIsRead(m: string, member: Member, rest: string)
    requires SkipWs(m) == m && Head(m, '"')
    requires ReadMember(m) == Some((member, "\n    }" + rest))
    ensures ReadValue("{ " + m) == Some((Obj([member]), rest))
  {
    var s := "{ " + m;
    assert s[1..] == " " + m;
    SkipBlank(" ", m);
    var end := "}" + rest;
    assert "\n    }" + rest == "\n    " + end;
    SkipBlank("\n    ", end);
    assert end[1..] == rest;
  }

  lemma PipObjectIsRead(ps: seq<string>, rest: string)
    requires ps != [] && AllClean(ps)
    ensures ReadItems(SkipWs(PipObject(ps) + rest)) == Prepend([PipEntry(ps)], ReadRest(rest))
  {
    var close := "\n    }" + rest;
    var wheels := "[\n" + QuotedList(ps, PIP_INDENT, false) + ("\n    ]" + close);
    var m := "\"pip\"" + (": " + wheels);
    PipSplits(QuotedList(ps, PIP_INDENT, false), rest);
    SkipBlank("     ", "{ " + m);
    PipArrayIsRead(ps, close);
    PipMemberIsRead(wheels, ps, close);
    ObjectIsRead(m, Member("pip", Arr(Strings(ps))), rest);
    ItemsAre("{ " + m);
  }

  lemma PipMemberIsRead(wheels: string, ps: seq<string>, close: string)
    requires ReadValue(wheels) == Some((Arr(Strings(ps)), close)) && SkipWs(wheels) == wheels
    ensures ReadMember("\"pip\"" + (": " + wheels)) == Some((Member("pip", Arr(Strings(ps))), close))
  {
    var m := "\"pip\"" + (": " + wheels);
    assert m[1..] == "pip" + "\"" + (": " + wheels);
    CleanIsRead("pip", ": " + wheels);
    assert (": " + wheels)[1..] == " " + wheels;
    SkipBlank(" ", wheels);
  }

  lemma PipSplits(list: string, rest: string)
    ensures (PIP_OPEN + PIP_KEY + list + PIP_CLOSE) + rest
         == "     " + ("{ " + ("\"pip\"" + (": " + ("[\n" + list + ("\n    ]" + ("\n    }" + rest))))))
  {
  }

  // ---------- the whole JSON text ----------

  /** What closes the text behind its last entry. */
  const CLOSE := "\n" + " ]"

  lemma CloseIsRead()
    ensures ReadRest(CLOSE) == Some(([], ""))
  {
    SkipBlank("\n ", "]");
    assert CLOSE == "\n " + "]";
  }

  lemma OnlyDependencies(ds: seq<string>)
    requires AllClean(ds) && ds != []
    ensures ReadItems(SkipWs(JsonBody(ds, []) + " ]")) == Some((Expected(ds, []), ""))
  {
    var list := QuotedList(ds, DEPENDENCY_INDENT, false);
    CloseIsRead();
    assert JsonBody(ds, []) + " ]" == list + CLOSE;
    ListIsRead(ds, DEPENDENCY_INDENT, CLOSE);
  }

  lemma OnlyPips(ps: seq<string>)
    requires AllClean(ps) && ps != []
    ensures ReadItems(SkipWs(JsonBody([], ps) + " ]")) == Some((Expected([], ps), ""))
  {
    var pip := PipObject(ps);
    CloseIsRead();
    assert JsonBody([], ps) + " ]" == pip + CLOSE;
    PipObjectIsRead(ps, CLOSE);
    assert [PipEntry(ps)] + [] == Expected([], ps);
  }

  lemma SeparatedPip(pip: string)
    ensures ReadRest(Separator(true) + pip) == ReadItems(SkipWs(pip))
  {
  }

  lemma Both(ds: seq<string>, ps: seq<string>)
    requires AllClean(ds) && AllClean(ps) && ds != [] && ps != []
    ensures ReadItems(SkipWs(JsonBody(ds, ps) + " ]")) == Some((Expected(ds, ps), ""))
  {
    var list, pip := QuotedList(ds, DEPENDENCY_INDENT, false), PipObject(ps);
    CloseIsRead();
    Regroup4(list, Separator(true) + pip, "\n", " ]");
    Regroup(Separator(true), pip, CLOSE);
    ListIsRead(ds, DEPENDENCY_INDENT, Separator(true) + (pip + CLOSE));
    SeparatedPip(pip + CLOSE);
    PipObjectIsRead(ps, CLOSE);
    assert [PipEntry(ps)] + [] == [PipEntry(ps)];
  }

  lemma BodyIsRead(ds: seq<string>, ps: seq<string>)
    requires AllClean(ds) && AllClean(ps) && (ds != [] || ps != [])
    ensures ReadItems(SkipWs(JsonBody(ds, ps) + " ]")) == Some((Expected(ds, ps), ""))
  {
    if ps == [] {
      OnlyDependencies(ds);
    } else if ds == [] {
      OnlyPips(ps);
    } else {
      Both(ds, ps);
    }
  }

  lemma BracketedIsRead(body: string, items: seq<Json>)
    requires ReadItems(SkipWs(body + " ]")) == Some((items, ""))
    ensures Parse("[ " + body + " ]") == Some(Arr(items))
  {
    var text := "[ " + body + " ]";
    assert text[1..] == " " + (body + " ]");
    SkipBlank(" ", body + " ]");
    assert SkipWs(text) == text;
    assert SkipWs("") == "";
  }

  /** A text of clean strings is read as exactly what it should say. */
  lemma CleanTextIsRead(ds: seq<string>, ps: seq<string>)
    requires AllClean(ds) && AllClean(ps)
    ensures Parse(JsonText(ds, ps)) == Some(Arr(Expected(ds, ps)))
  {
    if ds == [] && ps == [] {
      assert JsonText(ds, ps) == "[  ]";
      assert "[  ]"[1..] == "  " + "]";
      SkipBlank("  ", "]");
      assert SkipWs("") == "";
    } else {
      BodyIsRead(ds, ps);
      BracketedIsRead(JsonBody(ds, ps), Expected(ds, ps));
    }
  }

  // ---------- the ink of the JSON text ----------

  function RawInk(xs: seq<string>): nat {
    if xs == [] then 0 else 3 + Ink(xs[0]) + RawInk(xs[1..])
  }

  lemma {:induction false} BlankHasNoInk(ws: string)
    requires IsIndent(ws)
    ensures Ink(ws) == 0
  {
    if ws != "" {
      assert ws[0] in ws && forall c <- ws[1..] :: c in ws;
      BlankHasNoInk(ws[1..]);
    }
  }

  lemma QuotedInk(x: string)
    ensures Ink(Quoted(x)) == 2 + Ink(x)
  {
    InkConcat("\"" + x, "\"");
    InkConcat("\"", x);
    assert Ink("\"") == 1 + Ink("\""[1..]);
  }

  lemma SeparatorInk(printed: bool)
    ensures Ink(Separator(printed)) == if printed then 1 else 0
  {
    if printed {
      assert ",\n" == "," + "\n";
      InkConcat(",", "\n");
      assert Ink(",") == 1 + Ink(","[1..]);
      BlankHasNoInk("\n");
    }
  }

  lemma {:induction false} ListInk(xs: seq<string>, indent: string, printed: bool)
    requires IsIndent(indent)
    ensures Ink(QuotedList(xs, indent, printed)) + (if xs != [] && !printed then 1 else 0) == RawInk(xs)
    decreases |xs|
  {
    if xs != [] {
      var rest := QuotedList(xs[1..], indent, true);
      ListInk(xs[1..], indent, true);
      InkConcat(Separator(printed) + indent + Quoted(xs[0]), rest);
      InkConcat(Separator(printed) + indent, Quoted(xs[0]));
      InkConcat(Separator(printed), indent);
      SeparatorInk(printed);
      BlankHasNoInk(indent);
      QuotedInk(xs[0]);
    }
  }

  lemma Ink3(a: string, b: string, c: string)
    ensures Ink(a + b + c) == Ink(a) + Ink(b) + Ink(c)
  {
    InkConcat(a + b, c);
    InkConcat(a, b);
  }

  lemma PipInk(ps: seq<string>)
    requires ps != []
    ensures Ink(PipObject(ps)) == 9 + RawInk(ps)
  {
    Ink3(PIP_OPEN + PIP_KEY, QuotedList(ps, PIP_INDENT, false), PIP_CLOSE);
    InkConcat(PIP_OPEN, PIP_KEY);
    ListInk(ps, PIP_INDENT, false);
    PipMarks();
  }

  /** A mark between blanks. */
  lemma MarkInk(before: string, mark: string, after: string)
    requires IsIndent(before) && forall c <- mark :: !IsWs(c)
    ensures Ink(before + mark + after) == |mark| + Ink(after)
  {
    Ink3(before, mark, after);
    BlankHasNoInk(before);
    SolidInk(mark);
  }

  lemma PipMarks()
    ensures Ink(PIP_OPEN) == 1 && Ink(PIP_KEY) == 7 && Ink(PIP_CLOSE) == 2
  {
    OpenInk();
    KeyInk();
    CloseInk();
  }

  lemma OpenInk()
    ensures Ink(PIP_OPEN) == 1
  {
  }

  lemma KeyInk()
    ensures Ink(PIP_KEY) == 7
  {
  }

  lemma CloseInk()
    ensures Ink(PIP_CLOSE) == 2
  {
  }

  lemma {:induction false} SolidInk(s: string)
    requires forall c <- s :: !IsWs(c)
    ensures Ink(s) == |s|
  {
    if s != "" {
      assert s[0] in s && forall c <- s[1..] :: c in s;
      SolidInk(s[1..]);
    }
  }

  lemma PipPartInk(ds: seq<string>, ps: seq<string>)
    requires ps != []
    ensures Ink(Separator(ds != []) + PipObject(ps)) == (if ds == [] then 9 else 10) + RawInk(ps)
  {
    InkConcat(Separator(ds != []), PipObject(ps));
    SeparatorInk(ds != []);
    PipInk(ps);
  }

  lemma BodyInk(ds: seq<string>, ps: seq<string>)
    ensures Ink(JsonBody(ds, ps))
         == (if ps == [] then (if ds == [] then 0 else RawInk(ds) - 1) else 9 + RawInk(ds) + RawInk(ps))
  {
    var list := QuotedList(ds, DEPENDENCY_INDENT, false);
    var pip := if ps == [] then "" else Separator(ds != []) + PipObject(ps);
    var nl := if ds != [] || ps != [] then "\n" else "";
    Ink3(list, pip, nl);
    ListInk(ds, DEPENDENCY_INDENT, false);
    BlankHasNoInk(nl);
    if ps != [] {
      PipPartInk(ds, ps);
    }
  }

  lemma TextInk(ds: seq<string>, ps: seq<string>)
    ensures Ink(JsonText(ds, ps)) == 2 + Ink(JsonBody(ds, ps))
  {
    Ink3("[ ", JsonBody(ds, ps), " ]");
    BlankHasNoInk(" ");
    MarkInk("", "[", " ");
    assert "" + "[" + " " == "[ ";
    MarkInk(" ", "]", "");
    assert " " + "]" + "" == " ]";
  }

  // ---------- the ink it should have ----------

  lemma {:induction false} ItemsInkConcat(vs: seq<Json>, ws: seq<Json>)
    ensures ItemsInk(vs + ws) == ItemsInk(vs) + ItemsInk(ws)
  {
    if vs == [] {
      assert vs + ws == ws;
    } else {
      assert (vs + ws)[1..] == vs[1..] + ws;
      ItemsInkConcat(vs[1..], ws);
    }
  }

  lemma CleanTail(xs: seq<string>)
    requires xs != []
    ensures AllClean(xs) <==> Clean(xs[0]) && AllClean(xs[1..])
  {
    assert xs == [xs[0]] + xs[1..];
  }

  /** Strings written as they are have the ink they should have if and only if all are clean. */
  lemma {:induction false} StringsInk(xs: seq<string>)
    ensures RawInk(xs) <= ItemsInk(Strings(xs))
    ensures RawInk(xs) == ItemsInk(Strings(xs)) <==> AllClean(xs)
  {
    if xs != [] {
      StringsInk(xs[1..]);
      CleanHasInk(xs[0]);
      assert Strings(xs)[0] == Str(xs[0]) && Strings(xs)[1..] == Strings(xs[1..]);
      CleanTail(xs);
    }
  }

  lemma PipEntryInk(ps: seq<string>)
    requires ps != []
    ensures ValueInk(PipEntry(ps)) == 9 + ItemsInk(Strings(ps))
  {
    var m := Member("pip", Arr(Strings(ps)));
    StringsNonEmpty(ps);
    CleanHasInk("pip");
    SolidInk("pip");
    assert [m][1..] == [];
    assert MembersInk([m]) == 2 + StringInk("pip") + 1 + ValueInk(m.value) + 1 + MembersInk([]);
  }

  lemma ExpectedInk(ds: seq<string>, ps: seq<string>)
    ensures ValueInk(Arr(Expected(ds, ps)))
         == (if ps == [] then (if ds == [] then 2 else 1 + ItemsInk(Strings(ds)))
             else 11 + ItemsInk(Strings(ds)) + ItemsInk(Strings(ps)))
  {
    StringsNonEmpty(ds);
    if ps == [] {
      assert Expected(ds, ps) == Strings(ds);
    } else {
      ItemsInkConcat(Strings(ds), [PipEntry(ps)]);
      PipEntryInk(ps);
      assert [PipEntry(ps)][1..] == [];
      assert ItemsInk([PipEntry(ps)]) == ValueInk(PipEntry(ps)) + 1 + ItemsInk([]);
    }
  }

  /** The hand-written text is read as what it should say if and only if no string in it holds a
      character that needs escaping. */
  lemma JsonFaithful(ds: seq<string>, ps: seq<string>)
    ensures Parse(JsonText(ds, ps)) == Some(Arr(Expected(ds, ps))) <==> AllClean(ds) && AllClean(ps)
  {
    if AllClean(ds) && AllClean(ps) {
      CleanTextIsRead(ds, ps);
    } else if Parse(JsonText(ds, ps)) == Some(Arr(Expected(ds, ps))) {
      ParsedHasInk(JsonText(ds, ps));
      TextInk(ds, ps);
      BodyInk(ds, ps);
      ExpectedInk(ds, ps);
      StringsInk(ds);
      StringsInk(ps);
      assert false;
    }
  }

  // ---------- quotation marks ----------

  /** A text that ends the string it stands in and then says nothing that may follow an item. */
  predicate BreaksOff(d: string, x: string, y: string) {
    && d == x + "\"" + y && Clean(x)
    && y != "" && !IsWs(y[0]) && y[0] != ',' && y[0] != ']'
  }

  lemma BrokenItem(d: string, x: string, y: string, after: string)
    requires BreaksOff(d, x, y)
    ensures ReadItems(SkipWs(Quoted(d) + after)) == None
  {
    var rest := y + "\"" + after;
    var s := Quoted(d) + after;
    assert s[1..] == x + "\"" + rest;
    CleanIsRead(x, rest);
    assert ReadValue(s) == Some((Str(x), rest));
    assert rest[0] == y[0];
    assert ReadRest(rest) == None;
    ItemsAre(s);
  }

  /** Where a list of clean strings is followed by one that breaks off, the reader fails. */
  lemma {:induction false} BrokenList(xs: seq<string>, d: string, ys: seq<string>, x: string, y: string,
                                      indent: string, tail: string)
    requires AllClean(xs) && BreaksOff(d, x, y) && IsIndent(indent)
    ensures ReadItems(SkipWs(QuotedList(xs + [d] + ys, indent, false) + tail)) == None
    decreases |xs|
  {
    var all := xs + [d] + ys;
    var after := QuotedList(all[1..], indent, true) + tail;
    var q := Quoted(all[0]) + after;
    assert QuotedList(all, indent, false) + tail == indent + q;
    SkipBlank(indent, q);
    if xs == [] {
      assert all[0] == d;
      BrokenItem(d, x, y, after);
    } else {
      assert all[0] == xs[0] && xs[0] in xs && forall z <- xs[1..] :: z in xs;
      assert all[1..] == xs[1..] + [d] + ys;
      var more := QuotedList(all[1..], indent, false) + tail;
      CommaFirst(all[1..], indent, tail);
      assert after == ",\n" + more;
      ReadRestComma("", more);
      assert "" + more == more;
      BrokenList(xs[1..], d, ys, x, y, indent, tail);
      QuotedIsRead(xs[0], after);
      ItemsAre(q);
    }
  }

  /** So no JSON can be made of dependencies that begin like that. */
  lemma BrokenText(xs: seq<string>, d: string, ys: seq<string>, x: string, y: string, ps: seq<string>)
    requires AllClean(xs) && BreaksOff(d, x, y)
    ensures Parse(JsonText(xs + [d] + ys, ps)) == None
  {
    var ds := xs + [d] + ys;
    var tail := BodyTail(ds, ps);
    BrokenList(xs, d, ys, x, y, DEPENDENCY_INDENT, tail);
    ListSkips(ds, DEPENDENCY_INDENT, tail);
    BracketedFails(JsonBody(ds, ps));
  }

  lemma BodyTail(ds: seq<string>, ps: seq<string>) returns (tail: string)
    ensures JsonBody(ds, ps) + " ]" == QuotedList(ds, DEPENDENCY_INDENT, false) + tail
  {
    var pip := if ps == [] then "" else Separator(ds != []) + PipObject(ps);
    var nl := if ds != [] || ps != [] then "\n" else "";
    tail := pip + nl + " ]";
  }

  lemma BracketedFails(body: string)
    requires ReadItems(SkipWs(body + " ]")) == None && Head(SkipWs(body + " ]"), '"')
    ensures Parse("[ " + body + " ]") == None
  {
    var text := "[ " + body + " ]";
    assert text[1..] == " " + (body + " ]");
    SkipBlank(" ", body + " ]");
    assert SkipWs(text) == text;
  }
}
