/** What `releaser.py` writes into a project's changelog, read again by its own reader. */
module ProjectRoundTrip {
  import opened Wrappers
  import opened Sequences
  import opened PyText
  import opened ChangelogModel
  import opened ReleaserSpec
  import opened ChangelogRoundTrip
  import opened UpdateChangelog
  import opened OlderText
  import opened ReleaseTheorems
  import ReleaseLines
  import VersionScheme

  // ---------- what is read again ----------

  /** The heading of a section as it is printed. */
  function Heading(b: Block): string {
    Strip(b.text)
  }

  predicate PrintableHeading(h: string) {
    && h != "" && Trimmed(h) && '\n' !in h
    && h[0] != '-' && !(H2 <= h) && !(RELEASE <= h)
  }

  predicate PrintableBlock(b: Block) {
    PrintableHeading(Heading(b)) && forall e <- b.items :: '\n' !in e.text
  }

  /** An item as it is read from its printed line. */
  function RereadItem(e: Entry): Entry {
    ItemOf("- " + Strip(e.text) + "\n")
  }

  function RereadItems(items: seq<Entry>, name: string): seq<Entry> {
    if items == [] then []
    else (if Applies(items[0].appliesTo, name) then [RereadItem(items[0])] else [])
         + RereadItems(items[1..], name)
  }

  function RereadHeading(b: Block): Block {
    HeadingBlock(NewBlock(), Heading(b) + "\n")
  }

  function RereadBlock(b: Block, name: string): Block {
    RereadHeading(b).(items := RereadItems(b.items, name))
  }

  function Reread(sections: seq<Block>, name: string): seq<Block> {
    if sections == [] then []
    else (if Kept(sections[0], name) then [RereadBlock(sections[0], name)] else [])
         + Reread(sections[1..], name)
  }

  // ---------- what should be read again ----------

  /** Somewhere in the text stands a bracket, and further on one that closes. */
  predicate HasList(s: string) {
    exists i, j :: 0 <= i < j < |s| && s[i] == '[' && s[j] == ']'
  }

  /** The items for a project, for all packages now, behind the bullet they are printed with. */
  function FilteredItems(items: seq<Entry>, name: string): seq<Entry> {
    if items == [] then []
    else (if Applies(items[0].appliesTo, name) then [Entry([ALL], "- " + Strip(items[0].text))] else [])
         + FilteredItems(items[1..], name)
  }

  /** The sections that are kept for a project, for all packages now, each with its items for it. */
  function Filtered(sections: seq<Block>, name: string): seq<Block> {
    if sections == [] then []
    else (if Kept(sections[0], name)
          then [Block(FilteredItems(sections[0].items, name), [ALL], Heading(sections[0]) + "\n")] else [])
         + Filtered(sections[1..], name)
  }

  /** An item with some text and no bracketed list in it. */
  predicate PlainItem(e: Entry) {
    Strip(e.text) != "" && !HasList(e.text)
  }

  /** A heading without a bracketed list, or with one that says `all`. */
  predicate PlainHeading(h: string) {
    SearchBrackets(h).Some? ==> TagsOf(SearchBrackets(h).value.0) == [ALL]
  }

  predicate PlainItems(items: seq<Entry>, name: string) {
    forall e <- items :: Applies(e.appliesTo, name) ==> PlainItem(e)
  }

  predicate PlainSections(sections: seq<Block>, name: string) {
    forall s <- sections :: Kept(s, name) ==> PlainHeading(Heading(s)) && PlainItems(s.items, name)
  }

  // ---------- items ----------

  /** The changes of a project as plain lines. */
  function Plain(changes: seq<string>): string {
    if changes == [] then "" else changes[0] + "\n" + Plain(changes[1..])
  }

  lemma {:induction false} ItemsPlain(items: seq<Entry>, name: string, previous: string)
    requires "- " <= previous
    ensures ChangesText(Some(previous), ItemChanges(items, name)) == Plain(ItemChanges(items, name))
    decreases |items|
  {
    if items != [] {
      var rest := ItemChanges(items[1..], name);
      if Applies(items[0].appliesTo, name) {
        var c := "- " + Strip(items[0].text);
        ItemsPlain(items[1..], name, c);
        assert ItemChanges(items, name) == [c] + rest;
      } else {
        ItemsPlain(items[1..], name, previous);
        assert ItemChanges(items, name) == rest;
      }
    }
  }

  /** The first item below a heading is set off by an empty line. */
  lemma {:induction false} ItemsBelowHeading(items: seq<Entry>, name: string, previous: string)
    requires !("- " <= previous)
    ensures var cs := ItemChanges(items, name);
            ChangesText(Some(previous), cs) == (if cs == [] then "" else "\n") + Plain(cs)
    decreases |items|
  {
    if items != [] {
      var rest := ItemChanges(items[1..], name);
      if Applies(items[0].appliesTo, name) {
        var c := "- " + Strip(items[0].text);
        assert ItemChanges(items, name) == [c] + rest;
        ItemsPlain(items[1..], name, c);
        assert ChangeText(Some(previous), c) == "\n" + c + "\n";
      } else {
        ItemsBelowHeading(items[1..], name, previous);
        assert ItemChanges(items, name) == rest;
      }
    }
  }

  lemma ItemAgain(e: Entry, rest: string, r: Reading)
    requires r.Valid() && r.sections != [] && !r.inSection && '\n' !in e.text
    requires rest != "" && !(H2 <= rest)
    ensures ScanText("- " + Strip(e.text) + "\n" + rest, r) == ScanText(rest, OnLast(r, [RereadItem(e)]))
  {
    var line := "- " + Strip(e.text);
    StripTrimmed(e.text);
    assert line[0] == '-';
    assert '\n' !in line;
    StepText(line, rest, r);
    assert (line + "\n")[0] == '-';
    NotBlank(line + "\n", '-');
    assert AddLine(r, line + "\n") == AddItem(r, line + "\n");
  }

  lemma PlainStart(cs: seq<string>, rest: string)
    requires rest != "" && !(H2 <= rest)
    requires forall c <- cs :: "- " <= c
    ensures Plain(cs) + rest != "" && !(H2 <= Plain(cs) + rest)
  {
    if cs != [] {
      assert cs[0] in cs;
      assert (Plain(cs) + rest)[0] == '-';
    } else {
      assert Plain(cs) + rest == rest;
    }
  }

  lemma {:induction false} ItemChangesAreItems(items: seq<Entry>, name: string)
    ensures forall c <- ItemChanges(items, name) :: "- " <= c
    ensures |ItemChanges(items, name)| == |RereadItems(items, name)|
  {
    if items != [] {
      ItemChangesAreItems(items[1..], name);
    }
  }

  lemma {:induction false} ItemsAgain(items: seq<Entry>, name: string, rest: string, r: Reading)
    requires r.Valid() && r.sections != [] && !r.inSection
    requires forall e <- items :: '\n' !in e.text
    requires rest != "" && !(H2 <= rest)
    ensures ScanText(Plain(ItemChanges(items, name)) + rest, r)
         == ScanText(rest, OnLast(r, RereadItems(items, name)))
    decreases |items|
  {
    if items == [] {
      assert Plain(ItemChanges(items, name)) + rest == rest;
      OnLastNothing(r);
    } else {
      assert items[0] in items && forall e <- items[1..] :: e in items;
      var cs := ItemChanges(items[1..], name);
      if Applies(items[0].appliesTo, name) {
        var c := "- " + Strip(items[0].text);
        assert ItemChanges(items, name) == [c] + cs;
        assert Plain([c] + cs) + rest == c + "\n" + (Plain(cs) + rest);
        ItemChangesAreItems(items[1..], name);
        PlainStart(cs, rest);
        ItemAgain(items[0], Plain(cs) + rest, r);
        ItemsAgain(items[1..], name, rest, OnLast(r, [RereadItem(items[0])]));
        OnLastTwice(r, [RereadItem(items[0])], RereadItems(items[1..], name));
      } else {
        assert ItemChanges(items, name) == cs;
        ItemsAgain(items[1..], name, rest, r);
        assert RereadItems(items, name) == RereadItems(items[1..], name);
      }
    }
  }

  // ---------- headings ----------

  lemma HeadingAgain(h: string, rest: string, r: Reading)
    requires r.Valid() && !r.inSection && PrintableHeading(h)
    requires rest != "" && !(H2 <= rest)
    ensures ScanText(h + "\n" + rest, r) == ScanText(rest, Opened(r, HeadingBlock(NewBlock(), h + "\n")))
  {
    StepText(h, rest, r);
    var line := h + "\n";
    assert line[0] == h[0];
    NotBlank(line, h[0]);
    assert AddHeading(r, line) == Opened(r, HeadingBlock(NewBlock(), line));
  }

  /** A result up to whether a section is still open at its end. */
  function Forget(res: Result<Reading, ReadError>): Result<Reading, ReadError> {
    match res
    case Ok(r) => Ok(r.(inSection := false))
    case Err(e) => Err(e)
  }

  /** Before an empty line it does not matter whether a section is open. */
  lemma BlankForgets(rest: string, r: Reading)
    requires r.Valid() && rest != ""
    ensures Forget(ScanText("\n" + rest, r)) == Forget(ScanText("\n" + rest, r.(inSection := false)))
  {
    if H2 <= rest {
      assert "" + "\n" + rest == "\n" + rest;
      StopText("", rest, r);
      StopText("", rest, r.(inSection := false));
    } else {
      BlankText(rest, r);
      BlankText(rest, r.(inSection := false));
    }
  }

  // ---------- one section ----------

  /** The printed text of a section that is kept: heading, empty line, items. */
  function KeptText(b: Block, name: string): string {
    var cs := ItemChanges(b.items, name);
    Heading(b) + "\n" + ((if cs == [] then "" else "\n") + Plain(cs))
  }

  lemma KeptAgain(b: Block, name: string, rest: string, r: Reading)
    requires r.Valid() && !r.inSection && PrintableBlock(b) && rest != ""
    ensures Forget(ScanText(KeptText(b, name) + ("\n" + rest), r))
         == Forget(ScanText("\n" + rest, Closed(r, [RereadBlock(b, name)])))
  {
    var cs, tail := ItemChanges(b.items, name), "\n" + rest;
    var r' := Opened(r, RereadHeading(b));
    ItemChangesAreItems(b.items, name);
    EmptyLineFirst(rest);
    if cs == [] {
      assert KeptText(b, name) + tail == Heading(b) + "\n" + tail;
      HeadingAgain(Heading(b), tail, r);
      BlankForgets(rest, r');
      assert RereadBlock(b, name) == RereadHeading(b);
    } else {
      assert KeptText(b, name) + tail == Heading(b) + "\n" + ("\n" + (Plain(cs) + tail));
      PlainStart(cs, tail);
      EmptyLineFirst(Plain(cs) + tail);
      HeadingAgain(Heading(b), "\n" + (Plain(cs) + tail), r);
      BlankText(Plain(cs) + tail, r');
      ItemsAgain(b.items, name, tail, r'.(inSection := false));
      OnOpened(r, b, name);
    }
  }

  lemma OnOpened(r: Reading, b: Block, name: string)
    ensures OnLast(Opened(r, RereadHeading(b)).(inSection := false), RereadItems(b.items, name))
         == Closed(r, [RereadBlock(b, name)])
  {
    assert [] + RereadItems(b.items, name) == RereadItems(b.items, name);
  }

  // ---------- all sections ----------

  lemma {:induction false} ChangesTextConcat(previous: Option<string>, xs: seq<string>, ys: seq<string>)
    ensures ChangesText(previous, xs + ys)
         == ChangesText(previous, xs) + ChangesText(if xs == [] then previous else Some(xs[|xs| - 1]), ys)
    decreases |xs|
  {
    if xs == [] {
      assert xs + ys == ys;
    } else {
      assert (xs + ys)[1..] == xs[1..] + ys;
      ChangesTextConcat(Some(xs[0]), xs[1..], ys);
    }
  }

  /** The changes of one kept section are printed as its text, whatever came before. */
  lemma BlockPrinted(b: Block, name: string, first: bool, previous: Option<string>)
    requires PrintableBlock(b) && Kept(b, name)
    ensures ChangesText(previous, BlockChanges(b, name, first))
         == (if first then "" else "\n") + KeptText(b, name)
  {
    var h := Heading(b);
    var c := if first then h else "\n" + h;
    var items := ItemChanges(b.items, name);
    var below := (if items == [] then "" else "\n") + Plain(items);
    assert c[0] != '-' && !("-" <= c) && !("- " <= c);
    ItemsBelowHeading(b.items, name, c);
    assert BlockChanges(b, name, first) == [c] + items;
    HeadPrinted(previous, c, items);
    Regroup4(if first then "" else "\n", h, "\n", below);
    Regroup(h, "\n", below);
    assert c == (if first then "" else "\n") + h;
  }

  lemma HeadPrinted(previous: Option<string>, c: string, items: seq<string>)
    requires !("-" <= c)
    ensures ChangesText(previous, [c] + items) == (c + "\n") + ChangesText(Some(c), items)
  {
  }

  lemma {:induction false} SectionsAgain(sections: seq<Block>, name: string, first: bool,
                                         previous: Option<string>, older: string, r: Reading)
    requires r.Valid() && (first ==> !r.inSection)
    requires (forall b <- sections :: PrintableBlock(b)) && H2 <= older
    ensures Forget(ScanText(ChangesText(previous, ChangesFrom(sections, name, first)) + ("\n" + older), r))
         == Ok(Closed(r, Reread(sections, name)))
    decreases |sections|
  {
    var end := "\n" + older;
    if sections == [] {
      assert ChangesText(previous, []) + end == end;
      assert "" + "\n" + older == end;
      StopText("", older, r);
      assert r.sections + [] == r.sections;
    } else {
      var b, rest := sections[0], sections[1..];
      assert b in sections && forall x <- rest :: x in sections;
      var cs := ChangesFrom(rest, name, false);
      if Kept(b, name) {
        var bs := BlockChanges(b, name, first);
        var text := ChangesText(Some(bs[|bs| - 1]), cs) + end;
        ChangesTextConcat(previous, bs, cs);
        BlockPrinted(b, name, first, previous);
        var tail := RestStart(rest, name, Some(bs[|bs| - 1]), older);
        var r' := Closed(r, [RereadBlock(b, name)]);
        Regroup4(if first then "" else "\n", KeptText(b, name), ChangesText(Some(bs[|bs| - 1]), cs), end);
        KeptFollowed(b, name, first, tail, r);
        SectionsAgain(rest, name, false, Some(bs[|bs| - 1]), older, r');
        ClosedTwice(r, [RereadBlock(b, name)], Reread(rest, name));
      } else {
        assert ChangesFrom(sections, name, first) == cs;
        SectionsAgain(rest, name, false, previous, older, r);
        assert Reread(sections, name) == Reread(rest, name);
      }
    }
  }

  lemma KeptFollowed(b: Block, name: string, first: bool, tail: string, r: Reading)
    requires r.Valid() && (first ==> !r.inSection) && PrintableBlock(b) && tail != ""
    ensures Forget(ScanText((if first then "" else "\n") + (KeptText(b, name) + ("\n" + tail)), r))
         == Forget(ScanText("\n" + tail, Closed(r, [RereadBlock(b, name)])))
  {
    var text := KeptText(b, name) + ("\n" + tail);
    KeptAgain(b, name, tail, r.(inSection := false));
    if first {
      assert "" + text == text;
    } else {
      KeptStart(b, name, "\n" + tail);
      BlankText(text, r);
    }
  }

  lemma KeptStart(b: Block, name: string, tail: string)
    requires PrintableBlock(b)
    ensures !(H2 <= KeptText(b, name) + tail)
  {
    var h := Heading(b);
    var s := KeptText(b, name) + tail;
    var after := s[|h|..];
    assert s == h + "\n" + after[1..];
    LinesCons(h, after[1..]);
    HeaderOfText(s);
    PrefixBefore(H2, h, '\n');
  }

  /** What is printed after a section begins with an empty line. */
  lemma {:induction false} RestStart(sections: seq<Block>, name: string, previous: Option<string>, older: string)
      returns (tail: string)
    requires (forall b <- sections :: PrintableBlock(b)) && older != ""
    ensures ChangesText(previous, ChangesFrom(sections, name, false)) + ("\n" + older) == "\n" + tail
    ensures tail != ""
    decreases |sections|
  {
    if sections == [] {
      tail := older;
    } else {
      var b, rest := sections[0], sections[1..];
      assert b in sections && forall x <- rest :: x in sections;
      if Kept(b, name) {
        var bs := BlockChanges(b, name, false);
        ChangesTextConcat(previous, bs, ChangesFrom(rest, name, false));
        BlockPrinted(b, name, false, previous);
        var others := ChangesText(Some(bs[|bs| - 1]), ChangesFrom(rest, name, false));
        Regroup4("\n", KeptText(b, name), others, "\n" + older);
        tail := KeptText(b, name) + (others + ("\n" + older));
      } else {
        assert ChangesFrom(sections, name, false) == ChangesFrom(rest, name, false);
        tail := RestStart(rest, name, previous, older);
      }
    }
  }

  // ---------- the round trip ----------

  /** What the reader makes of a project's changelog, whether or not it then finds a version. */
  function ReadSections(changelog: string): Result<seq<Block>, ReadError> {
    match AfterHeader(Lines(changelog))
    case None => Err(NoHeader)
    case Some(lines) =>
      match Scan(lines, START)
      case Ok(r) => Ok(r.sections)
      case Err(e) => Err(e)
  }

  /** A project's changelog is read as the sections that were kept for the project, with their
      items in order, all for all packages, if and only if no heading and no item for the project
      holds a bracketed list. It names no release, so the script as a whole stops there. */
  lemma ProjectAgain(name: string, version: string, date: string, sections: seq<Block>, older: string)
    requires '\n' !in name && '\n' !in version && '\n' !in date && H2 <= older
    requires forall b <- sections :: PrintableBlock(b)
    ensures var text := ProjectText(name, version, date, Changes(sections, name)) + older;
            && (ReadSections(text) == Ok(Filtered(sections, name)) <==> PlainSections(sections, name))
            && ReadSections(text) == Ok(Reread(sections, name))
            && ReadNotes(text) == Err(NoRelease)
  {
    var header := ProjectHeader(name, version, date);
    var body := ChangesText(None, Changes(sections, name)) + ("\n" + older);
    var text := ProjectText(name, version, date, Changes(sections, name)) + older;
    assert text == header + "\n" + ("\n" + body) by {
      Regroup5(header + "\n", "\n", ChangesText(None, Changes(sections, name)), "\n", older);
    }
    LinesCons(header, "\n" + body);
    assert H2 <= header + "\n";
    assert AfterHeader(Lines(text)) == Some(Lines("\n" + body));
    SectionsAgain(sections, name, true, None, older, START);
    BodyStart(sections, name, older);
    BlankText(body, START);
    assert [] + Reread(sections, name) == Reread(sections, name);
    RereadIsFiltered(sections, name);
  }

  lemma BodyStart(sections: seq<Block>, name: string, older: string)
    requires (forall b <- sections :: PrintableBlock(b)) && older != ""
    ensures !(H2 <= ChangesText(None, Changes(sections, name)) + ("\n" + older))
  {
    if sections != [] && Kept(sections[0], name) {
      var b, rest := sections[0], sections[1..];
      assert b in sections;
      var bs := BlockChanges(b, name, true);
      var cs := ChangesFrom(rest, name, false);
      ChangesTextConcat(None, bs, cs);
      BlockPrinted(b, name, true, None);
      var end := ChangesText(Some(bs[|bs| - 1]), cs) + ("\n" + older);
      Regroup4("", KeptText(b, name), ChangesText(Some(bs[|bs| - 1]), cs), "\n" + older);
      assert "" + (KeptText(b, name) + end) == KeptText(b, name) + end;
      KeptStart(b, name, end);
    } else if sections != [] {
      assert forall x <- sections[1..] :: x in sections;
      assert Changes(sections, name) == ChangesFrom(sections[1..], name, false);
      var tail := RestStart(sections[1..], name, None, older);
      EmptyLineFirst(tail);
    } else {
      assert ChangesText(None, Changes(sections, name)) + ("\n" + older) == "\n" + older;
      EmptyLineFirst(older);
    }
  }

  /** The sections read from a written release can all be printed for a project. */
  lemma {:induction false} WrittenSectionsPrint(cs: seq<Category>)
    requires PrintableCategories(cs)
    ensures forall b <- BlocksOf(cs) :: PrintableBlock(b)
  {
    if cs != [] {
      assert cs[0] in cs && forall d <- cs[1..] :: d in cs;
      WrittenSectionsPrint(cs[1..]);
      WrittenSectionPrints(cs[0]);
      assert BlocksOf(cs) == MaybeBlock(cs[0]) + BlocksOf(cs[1..]);
    }
  }

  lemma WrittenSectionPrints(c: Category)
    requires PrintableCategory(c)
    ensures PrintableBlock(BlockOf(c))
  {
    HeadingStripped(c.name);
    WrittenHeadingPrints(c.name);
    EntriesOneLine(c.items);
  }

  lemma WrittenHeadingPrints(name: string)
    requires HeadingName(name)
    ensures PrintableHeading(name + ":")
  {
    var h := name + ":";
    assert h[0] == name[0] && h[|h| - 1] == ':';
    assert ':' !in RELEASE;
    PrefixBefore(RELEASE, name, ':');
  }

  lemma {:induction false} EntriesOneLine(ts: seq<Tagged>)
    requires forall t <- ts :: Printable(t)
    ensures forall e <- Entries(ts) :: '\n' !in e.text
  {
    if ts != [] {
      assert ts[0] in ts && forall t <- ts[1..] :: t in ts;
      EntriesOneLine(ts[1..]);
      StripTrimmed(Description(ts[0].pr));
    }
  }

  function TextFor(notes: Notes, pkg: string, day: string): string {
    ProjectText(pkg, notes.version.name, day, Changes(notes.sections, pkg))
  }

  // ---------- what the items have become ----------

  /** An item comes back for all projects, its bullet now part of its text, if and only if its
      text holds no bracketed list; otherwise that list is taken for its tags. */
  lemma ItemComesBack(e: Entry)
    requires Strip(e.text) != ""
    ensures RereadItem(e) == Entry([ALL], "- " + Strip(e.text)) <==> SearchBrackets(Strip(e.text)).None?
    ensures SearchBrackets(Strip(e.text)).Some? ==>
              var (group, tail) := SearchBrackets(Strip(e.text)).value;
              RereadItem(e) == Entry(TagsOf(group), Strip(tail))
  {
    var t := Strip(e.text);
    StripTrimmed(e.text);
    var line := "- " + t + "\n";
    BracketsBetween("- ", t, "\n");
    if SearchBrackets(t).None? {
      assert "" + ("- " + t) + "\n" == line;
      StripIs("", "- " + t, "\n");
    } else {
      var (group, tail) := SearchBrackets(t).value;
      BracketsShorten(t);
      StripPadded("", tail, "\n");
      assert "" + tail + "\n" == tail + "\n";
      StripNoLonger(tail);
    }
  }

  /** No item text ever comes back as it was. */
  lemma TextNeverComesBack(e: Entry)
    ensures RereadItem(e).text != Strip(e.text)
  {
    var t := Strip(e.text);
    if t != "" {
      ItemComesBack(e);
      if SearchBrackets(t).Some? {
        BracketsShorten(t);
        StripNoLonger(SearchBrackets(t).value.1);
      }
    } else {
      var line := "- " + t + "\n";
      NotBlank(line, '-');
      CutSplits(line, '[');
    }
  }

  lemma StripNoLonger(s: string)
    ensures |Strip(s)| <= |s|
  {
    var a, b := StripSplits(s);
  }

  lemma BracketsShorten(t: string)
    requires SearchBrackets(t).Some?
    ensures |SearchBrackets(t).value.1| < |t|
  {
    CutSplits(t, '[');
    CutSplits(Cut(t, '[').value.1, ']');
  }

  lemma CutBetween(a: string, t: string, b: string, c: char)
    requires c !in a && c !in b
    ensures Cut(a + t + b, c) == match Cut(t, c)
                                 case None => None
                                 case Some((x, rest)) => Some((a + x, rest + b))
  {
    CutSplits(t, c);
    match Cut(t, c)
    case None => CutSplits(a + t + b, c);
    case Some((x, rest)) =>
      assert a + t + b == (a + x) + [c] + (rest + b);
      CutAt(a + x, c, rest + b);
  }

  /** Text without brackets around a text does not change what is found between them. */
  lemma BracketsBetween(a: string, t: string, b: string)
    requires '[' !in a && '[' !in b && ']' !in b
    ensures SearchBrackets(a + t + b)
         == match SearchBrackets(t)
            case None => None
            case Some((group, tail)) => Some((group, tail + b))
  {
    CutBetween(a, t, b, '[');
    if Cut(t, '[').Some? {
      var rest := Cut(t, '[').value.1;
      CutBetween("", rest, b, ']');
      assert "" + rest + b == rest + b;
      assert Cut(rest, ']').Some? ==> "" + Cut(rest, ']').value.0 == Cut(rest, ']').value.0;
    }
  }

  lemma ListIsSearched(s: string)
    ensures SearchBrackets(s).Some? <==> HasList(s)
  {
    CutSplits(s, '[');
    if Cut(s, '[').Some? {
      var (a, rest) := Cut(s, '[').value;
      CutSplits(rest, ']');
      assert forall j :: |a| < j < |s| ==> s[j] == rest[j - |a| - 1];
      if SearchBrackets(s).Some? {
        var k := |Cut(rest, ']').value.0|;
        assert s[|a|] == '[' && s[|a| + 1 + k] == ']';
      }
    }
  }

  lemma ListBetween(a: string, t: string, b: string)
    requires (forall c <- a :: c != '[' && c != ']') && (forall c <- b :: c != '[' && c != ']')
    ensures HasList(a + t + b) <==> HasList(t)
  {
    var s := a + t + b;
    assert forall k :: |a| <= k < |a| + |t| ==> s[k] == t[k - |a|];
    assert forall k :: 0 <= k < |a| ==> s[k] == a[k] && s[k] in a;
    assert forall k :: |a| + |t| <= k < |s| ==> s[k] == b[k - |a| - |t|] && s[k] in b;
    if HasList(s) {
      var i, j :| 0 <= i < j < |s| && s[i] == '[' && s[j] == ']';
      assert t[i - |a|] == '[' && t[j - |a|] == ']';
    }
    if HasList(t) {
      var i, j :| 0 <= i < j < |t| && t[i] == '[' && t[j] == ']';
      assert s[|a| + i] == '[' && s[|a| + j] == ']';
    }
  }

  lemma StripKeepsLists(s: string)
    ensures HasList(Strip(s)) <==> HasList(s)
  {
    var a, b := StripSplits(s);
    ListBetween(a, Strip(s), b);
  }

  lemma ItemIsFiltered(e: Entry)
    ensures RereadItem(e) == Entry([ALL], "- " + Strip(e.text)) <==> PlainItem(e)
  {
    StripKeepsLists(e.text);
    ListIsSearched(Strip(e.text));
    if Strip(e.text) != "" {
      ItemComesBack(e);
    } else {
      EmptyItem(e);
    }
  }

  /** An item without text comes back as a bare bullet. */
  lemma EmptyItem(e: Entry)
    requires Strip(e.text) == ""
    ensures RereadItem(e) == Entry([ALL], "-")
  {
    var line := "- " + Strip(e.text) + "\n";
    CutSplits(line, '[');
    assert "" + "-" + " \n" == line;
    StripIs("", "-", " \n");
  }

  lemma HeadingIsFiltered(b: Block)
    requires PrintableBlock(b)
    ensures RereadHeading(b) == Block([], [ALL], Heading(b) + "\n") <==> PlainHeading(Heading(b))
  {
    var h := Heading(b);
    assert "" + h + "\n" == h + "\n";
    BracketsBetween("", h, "\n");
    assert (h + "\n")[0] == h[0] && !IsSpace(h[0]);
    assert NewBlock().text + (h + "\n") == h + "\n";
  }

  lemma {:induction false} ItemsAreFiltered(items: seq<Entry>, name: string)
    ensures RereadItems(items, name) == FilteredItems(items, name) <==> PlainItems(items, name)
    ensures |RereadItems(items, name)| == |FilteredItems(items, name)|
  {
    if items != [] {
      var e, rest := items[0], items[1..];
      assert items == [e] + rest;
      ItemsAreFiltered(rest, name);
      ItemIsFiltered(e);
      var x := if Applies(e.appliesTo, name) then [RereadItem(e)] else [];
      var y := if Applies(e.appliesTo, name) then [Entry([ALL], "- " + Strip(e.text))] else [];
      SameParts(x, RereadItems(rest, name), y, FilteredItems(rest, name));
      assert PlainItems(items, name) <==> (Applies(e.appliesTo, name) ==> PlainItem(e)) && PlainItems(rest, name);
    }
  }

  lemma SameParts<T>(a: seq<T>, b: seq<T>, c: seq<T>, d: seq<T>)
    requires |a| == |c|
    ensures a + b == c + d <==> a == c && b == d
  {
    assert (a + b)[..|a|] == a && (c + d)[..|a|] == c;
    assert (a + b)[|a|..] == b && (c + d)[|a|..] == d;
  }

  lemma BlockIsFiltered(b: Block, name: string)
    requires PrintableBlock(b)
    ensures RereadBlock(b, name) == Block(FilteredItems(b.items, name), [ALL], Heading(b) + "\n")
            <==> PlainHeading(Heading(b)) && PlainItems(b.items, name)
  {
    HeadingIsFiltered(b);
    ItemsAreFiltered(b.items, name);
    var h := RereadHeading(b);
    assert h.items == [];
  }

  /** What is read again is the filtered sections if and only if all that was printed is plain. */
  lemma {:induction false} RereadIsFiltered(sections: seq<Block>, name: string)
    requires forall b <- sections :: PrintableBlock(b)
    ensures Reread(sections, name) == Filtered(sections, name) <==> PlainSections(sections, name)
  {
    if sections != [] {
      var b, rest := sections[0], sections[1..];
      assert sections == [b] + rest && forall x <- rest :: x in sections;
      RereadIsFiltered(rest, name);
      BlockIsFiltered(b, name);
      var x := if Kept(b, name) then [RereadBlock(b, name)] else [];
      var y := if Kept(b, name) then [Block(FilteredItems(b.items, name), [ALL], Heading(b) + "\n")] else [];
      SameParts(x, Reread(rest, name), y, Filtered(rest, name));
      assert PlainSections(sections, name) <==>
             (Kept(b, name) ==> PlainHeading(Heading(b)) && PlainItems(b.items, name)) && PlainSections(rest, name);
    }
  }

  // ---------- once around ----------

  /** No request for a package has a bracketed list in its description. */
  predicate PlainRequests(cs: seq<Category>, pkg: string) {
    forall c <- cs, t <- c.items :: Applies(t.tags, pkg) ==> !HasList(Description(t.pr))
  }

  lemma {:induction false} EntriesPlain(ts: seq<Tagged>, pkg: string)
    ensures PlainItems(Entries(ts), pkg)
            <==> forall t <- ts :: Applies(t.tags, pkg) ==> !HasList(Description(t.pr))
  {
    if ts != [] {
      var t := ts[0];
      EntriesPlain(ts[1..], pkg);
      EntryPlain(t);
      assert ts == [t] + ts[1..];
      assert Entries(ts) == [EntryOf(t)] + Entries(ts[1..]);
      assert PlainItems(Entries(ts), pkg) <==>
             (Applies(t.tags, pkg) ==> PlainItem(EntryOf(t))) && PlainItems(Entries(ts[1..]), pkg);
    }
  }

  lemma EntryPlain(t: Tagged)
    ensures PlainItem(EntryOf(t)) <==> !HasList(Description(t.pr))
  {
    var d := Description(t.pr);
    StripTrimmed(d);
    StripTrimmed(Strip(d));
    StripKeepsLists(d);
    assert d[|d| - 1] == '>';
    NotBlank(d, '>');
  }

  lemma CategoryPlain(c: Category, pkg: string)
    requires PrintableCategory(c) && c.items != []
    ensures var b := BlockOf(c);
            (Kept(b, pkg) ==> PlainHeading(Heading(b)) && PlainItems(b.items, pkg))
            <==> forall t <- c.items :: Applies(t.tags, pkg) ==> !HasList(Description(t.pr))
  {
    var b := BlockOf(c);
    HeadingStripped(c.name);
    CutSplits(c.name + ":", '[');
    assert SearchBrackets(Heading(b)).None?;
    EntriesPlain(c.items, pkg);
    if !Kept(b, pkg) {
      assert ALL in [ALL];
      assert forall e <- b.items :: !Applies(e.appliesTo, pkg);
    }
  }

  lemma {:induction false} CategoriesPlain(cs: seq<Category>, pkg: string)
    requires PrintableCategories(cs)
    ensures PlainSections(BlocksOf(cs), pkg) <==> PlainRequests(cs, pkg)
  {
    if cs != [] {
      var c, rest := cs[0], cs[1..];
      assert cs == [c] + rest && forall d <- rest :: d in cs;
      CategoriesPlain(rest, pkg);
      if c.items != [] {
        CategoryPlain(c, pkg);
        assert BlocksOf(cs) == [BlockOf(c)] + BlocksOf(rest);
      } else {
        assert BlocksOf(cs) == BlocksOf(rest);
      }
    }
  }

  lemma ShareAgain(cs: seq<Category>, pkg: string, version: string, day: string, older: string)
    requires '\n' !in day && '\n' !in pkg && '\n' !in version && PrintableCategories(cs) && H2 <= older
    ensures var text := ProjectText(pkg, version, day, Changes(BlocksOf(cs), pkg)) + older;
            ReadSections(text) == Ok(Filtered(BlocksOf(cs), pkg)) <==> PlainRequests(cs, pkg)
  {
    WrittenSectionsPrint(cs);
    ProjectAgain(pkg, version, day, BlocksOf(cs), older);
    CategoriesPlain(cs, pkg);
  }

  /** Once around: the requests are written as a release, the release is read, a package's share of
      it is printed, and that print is read again. The categories come back filtered to the
      package, if and only if no request for the package has a bracketed list in its description. */
  lemma OnceAround(date: string, version: string, cs: seq<Category>, older: string,
                   pkg: string, day: string, olderOfPkg: string)
    requires '\n' !in date && '\n' !in day && '\n' !in pkg && PrintableCategories(cs)
    requires Unseen(older) && H2 <= olderOfPkg
    requires ReleaseLines.Readable(version) && VersionScheme.Parse(version).Ok?
    ensures var notes := ReadNotes(ReleaseText(date, version, cs) + older);
            && notes.Ok?
            && (ReadSections(TextFor(notes.value, pkg, day) + olderOfPkg) == Ok(Filtered(BlocksOf(cs), pkg))
                <==> PlainRequests(cs, pkg))
  {
    RoundTrip(date, version, cs, older);
    ReadableIsOneLine(version);
    ShareAgain(cs, pkg, version, day, olderOfPkg);
    TextForIs(Notes(VersionScheme.Parse(version).value, READ_PROJECTS, BlocksOf(cs)), version, pkg, day);
  }

  lemma TextForIs(notes: Notes, version: string, pkg: string, day: string)
    requires VersionScheme.Parse(version) == Ok(notes.version)
    ensures TextFor(notes, pkg, day) == ProjectText(pkg, version, day, Changes(notes.sections, pkg))
  {
  }
}
