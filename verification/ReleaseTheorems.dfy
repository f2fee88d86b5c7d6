/** The two release scripts together: a release that is written is read back, for all pull
    requests, and every project gets its share of it. */
module ReleaseTheorems {
  import opened Wrappers
  import opened Sequences
  import opened PyText
  import opened ChangelogModel
  import opened UpdateChangelog
  import opened ReleaserSpec
  import opened ReleaseLines
  import opened ChangelogRoundTrip
  import opened OlderText
  import VersionScheme

  // ---------- reading a written release ----------

  /** What the reader knows after the release line. */
  function Opening(version: string): (r: Reading)
    ensures r.Valid() && !r.inSection
  {
    AddRelease(START, ReleaseLine(version) + "\n").value
  }

  lemma OpeningIs(version: string)
    ensures Readable(version) ==> Opening(version) == Reading(false, Some(version), READ_PROJECTS, [])
    ensures !Readable(version) && (forall c <- version :: IsDotWord(c)) ==> Opening(version) == START
  {
    if Readable(version) {
      PrintedMatches(version);
      ProjectsRead();
    } else if forall c <- version :: IsDotWord(c) {
      UnreadableNotFound(version);
    }
  }

  predicate PrintableCategories(cs: seq<Category>) {
    forall c <- cs :: PrintableCategory(c)
  }

  lemma ReleaseSplits(date: string, version: string, cs: seq<Category>, older: string)
    ensures ReleaseText(date, version, cs) + older
         == (H2 + date) + "\n" + ("\n" + (ReleaseLine(version) + "\n" + (CategoriesText(cs) + ("\n" + older))))
  {
    var a, b, c := H2 + date, ReleaseLine(version), CategoriesText(cs);
    var below := c + ("\n" + older);
    Regroup5(a + "\n", "\n" + b + "\n", c, "\n", older);
    Regroup4("\n", b, "\n", below);
    Regroup(b, "\n", below);
  }

  function AndFinish(r: Result<Reading, ReadError>): Result<Notes, ReadError> {
    match r
    case Ok(r') => Finish(r')
    case Err(e) => Err(e)
  }

  /** Below its header, a written release is read as its release line and its categories. The
      reader then goes on with the text that was there before. */
  lemma WrittenIsScanned(date: string, version: string, cs: seq<Category>, older: string)
    requires '\n' !in date && '\n' !in version && PrintableCategories(cs)
    ensures ReadNotes(ReleaseText(date, version, cs) + older)
         == AndFinish(ScanText("\n" + older, Closed(Opening(version), BlocksOf(cs))))
  {
    var t2 := CategoriesText(cs) + ("\n" + older);
    var t1 := ReleaseLine(version) + "\n" + t2;
    ReleaseSplits(date, version, cs, older);
    LinesCons(H2 + date, "\n" + t1);
    assert H2 <= H2 + date + "\n";
    assert AfterHeader(Lines(ReleaseText(date, version, cs) + older)) == Some(Lines("\n" + t1));
    BlankText(t1, START);
    ReleaseLineIsOneLine(version);
    ReleaseStep(ReleaseLine(version), t2, START);
    CategoriesRead(cs, "\n" + older, Opening(version));
    assert ScanText("\n" + t1, START) == ScanText("\n" + older, Closed(Opening(version), BlocksOf(cs)));
  }

  lemma ReleaseLineIsOneLine(version: string)
    requires '\n' !in version
    ensures '\n' !in ReleaseLine(version) && RELEASE <= ReleaseLine(version)
  {
  }

  // ---------- which versions come back ----------

  predicate NoneOrReadable(v: Option<string>) {
    v.None? || Readable(v.value)
  }

  lemma StepReadable(line: string, following: Option<string>, r: Reading)
    requires r.Valid() && NoneOrReadable(r.version)
    ensures var s := Step(line, following, r); s.Next? ==> NoneOrReadable(s.reading.version)
  {
    FoundIsReadable(line);
  }

  /** Whatever file is read, the version found has the shape of the pattern. */
  lemma {:induction false} ScanReadable(lines: seq<string>, r: Reading)
    requires r.Valid() && NoneOrReadable(r.version)
    ensures Scan(lines, r).Ok? ==> NoneOrReadable(Scan(lines, r).value.version)
    decreases |lines|
  {
    if lines != [] {
      StepReadable(lines[0], Second(lines), r);
      var s := Step(lines[0], Second(lines), r);
      if s.Next? {
        ScanReadable(lines[1..], s.reading);
      }
    }
  }

  lemma NotesReadable(changelog: string)
    requires ReadNotes(changelog).Ok?
    ensures Readable(ReadNotes(changelog).value.version.name)
  {
    ScanReadable(AfterHeader(Lines(changelog)).value, START);
  }

  lemma ReadableIsOneLine(v: string)
    requires Readable(v)
    ensures '\n' !in v
  {
    assert v == v[..5] + v[5..];
    assert forall c <- v[5..] :: c != '\n';
  }

  /** The round trip, for every accepted version and every text that was there before: the release
      comes back whole, and nothing of the older text with it, if and only if the version is
      readable and the older text is unseen. */
  lemma RoundTrip(date: string, version: string, cs: seq<Category>, older: string)
    requires '\n' !in date && PrintableCategories(cs)
    requires VersionScheme.Parse(version).Ok?
    ensures ReadNotes(ReleaseText(date, version, cs) + older)
            == Ok(Notes(VersionScheme.Parse(version).value, READ_PROJECTS, BlocksOf(cs)))
            <==> Readable(version) && Unseen(older)
  {
    var text := ReleaseText(date, version, cs) + older;
    if Readable(version) {
      ReadableComesBack(date, version, cs, older);
    } else if ReadNotes(text).Ok? {
      NotesReadable(text);
    }
  }

  /** What is read below a readable release line, before the older text. */
  lemma ReadableOpens(version: string, cs: seq<Category>)
    requires Readable(version)
    ensures Closed(Opening(version), BlocksOf(cs)) == Reading(false, Some(version), READ_PROJECTS, BlocksOf(cs))
  {
    OpeningIs(version);
    assert [] + BlocksOf(cs) == BlocksOf(cs);
  }

  lemma ReadableComesBack(date: string, version: string, cs: seq<Category>, older: string)
    requires '\n' !in date && PrintableCategories(cs)
    requires VersionScheme.Parse(version).Ok? && Readable(version)
    ensures ReadNotes(ReleaseText(date, version, cs) + older)
            == Ok(Notes(VersionScheme.Parse(version).value, READ_PROJECTS, BlocksOf(cs)))
            <==> Unseen(older)
  {
    ReadableIsOneLine(version);
    WrittenIsScanned(date, version, cs, older);
    ReadableOpens(version, cs);
    OlderIsUnseen(older, Reading(false, Some(version), READ_PROJECTS, BlocksOf(cs)));
  }

  /** On an empty file the reader runs past the end of the release. */
  lemma EmptyFile(date: string, version: string, cs: seq<Category>)
    requires '\n' !in date && '\n' !in version && PrintableCategories(cs)
    ensures ReadNotes(ReleaseText(date, version, cs) + "") == Err(EndOfFile)
  {
    WrittenIsScanned(date, version, cs, "");
    BlankLineFirst("");
    assert Lines("\n" + "") == ["\n"];
  }

  /** On a file with a title, the title becomes a section of the release. */
  lemma TitledFile(date: string, version: string, cs: seq<Category>, title: string, next: string)
    requires '\n' !in date && PrintableCategories(cs) && H2 <= next
    requires VersionScheme.Parse(version).Ok? && Readable(version)
    requires title != "" && '\n' !in title && '[' !in title && !IsSpace(title[0])
    requires title[0] != '-' && title[0] != '#' && !(RELEASE <= title)
    ensures ReadNotes(ReleaseText(date, version, cs) + (title + "\n" + ("\n" + next)))
            == Ok(Notes(VersionScheme.Parse(version).value, READ_PROJECTS,
                        BlocksOf(cs) + [Block([], [ALL], title + "\n")]))
  {
    ReadableIsOneLine(version);
    ReadableOpens(version, cs);
    WrittenIsScanned(date, version, cs, title + "\n" + ("\n" + next));
    TitleIsTaken(title, next, Reading(false, Some(version), READ_PROJECTS, BlocksOf(cs)));
  }

  /** A version of the documented form with a two-digit major or minor number is written without
      complaint, and then the reader finds no release at all. */
  lemma TwoDigitsAreLost(date: string, version: string, cs: seq<Category>, older: string)
    requires '\n' !in date && PrintableCategories(cs) && Unseen(older)
    requires VersionScheme.Parse(version).Ok?
    requires forall c <- version :: IsDotWord(c)
    requires var v := VersionScheme.Parse(version).value; |v.major| > 1 || |v.minor| > 1
    ensures ReadNotes(ReleaseText(date, version, cs) + older) == Err(NoRelease)
  {
    ReadableParts(version);
    OpeningIs(version);
    assert '\n' !in version;
    WrittenIsScanned(date, version, cs, older);
    OlderIsUnseen(older, Closed(Opening(version), BlocksOf(cs)));
  }

  lemma SuchAVersion()
    ensures var p := VersionScheme.Parse("2.10.0"); p.Ok? && |p.value.minor| == 2
    ensures !Readable("2.10.0")
  {
    var v := "2.10.0";
    assert VersionScheme.Spells(v, "2", "10", "0", "");
    VersionScheme.ParsesTo(v, "2", "10", "0", "");
    ReadableParts(v);
  }

  // ---------- documents of the printed shape ----------

  function Matches(body: seq<string>): nat {
    if body == [] then 0
    else (if RELEASE <= body[0] && SearchRelease(body[0]).Some? then 1 else 0) + Matches(body[1..])
  }

  /** No item stands before the first heading. */
  predicate HeadingFirst(body: seq<string>, headed: bool) {
    if body == [] then true
    else if RELEASE <= body[0] || Strip(body[0]) == "" then HeadingFirst(body[1..], headed)
    else if body[0][0] == '-' then headed && HeadingFirst(body[1..], headed)
    else HeadingFirst(body[1..], true)
  }

  /** On any lines closed by an empty line and the next release, the reader neither runs past
      the end nor meets an item without a section. It ends with a version if and only if one
      release line matches, and complains if and only if two do. */
  lemma {:induction false} ScanOutcome(body: seq<string>, next: seq<string>, r: Reading)
    requires r.Valid() && next != [] && H2 <= next[0]
    requires forall l <- body :: !(H2 <= l)
    requires HeadingFirst(body, r.sections != [])
    ensures var total := Matches(body) + (if r.version.Some? then 1 else 0);
            match Scan(body + ["\n"] + next, r)
            case Ok(r') => total <= 1 && (r'.version.Some? <==> total == 1)
            case Err(e) => e == DuplicateRelease && total > 1
    decreases |body|
  {
    var lines := body + ["\n"] + next;
    if body == [] {
      assert lines[0] == "\n" && lines[1] == next[0];
    } else {
      assert lines[0] == body[0];
      assert lines[1..] == body[1..] + ["\n"] + next;
      assert lines[1] == (if |body| > 1 then body[1] else "\n");
      assert forall l <- body[1..] :: l in body;
      assert |body| > 1 ==> body[1] in body;
      assert !(H2 <= lines[1]);
      var s := Step(lines[0], Second(lines), r);
      StepKeepsSections(body, r, Second(lines));
      if s.Next? {
        ScanOutcome(body[1..], next, s.reading);
      }
    }
  }

  /** Where an item does stand before the first heading, the reader fails. */
  lemma {:induction false} ScanNeedsHeading(body: seq<string>, next: seq<string>, r: Reading)
    requires r.Valid() && next != [] && H2 <= next[0]
    requires forall l <- body :: !(H2 <= l)
    requires !HeadingFirst(body, r.sections != [])
    ensures var s := Scan(body + ["\n"] + next, r);
            s.Err? && (s.error == ItemBeforeSection || s.error == DuplicateRelease)
    decreases |body|
  {
    var lines := body + ["\n"] + next;
    assert lines[0] == body[0] && lines[1..] == body[1..] + ["\n"] + next;
    assert lines[1] == (if |body| > 1 then body[1] else "\n");
    assert forall l <- body[1..] :: l in body;
    assert |body| > 1 ==> body[1] in body;
    assert !(H2 <= lines[1]);
    var s := Step(lines[0], Second(lines), r);
    if s.Next? {
      ScanNeedsHeading(body[1..], next, s.reading);
    }
  }

  /** What stands below the next release's header does not matter. */
  lemma {:induction false} NextDoesNotMatter(body: seq<string>, next: seq<string>, other: seq<string>, r: Reading)
    requires r.Valid() && next != [] && H2 <= next[0] && other != [] && H2 <= other[0]
    ensures Scan(body + ["\n"] + next, r) == Scan(body + ["\n"] + other, r)
    decreases |body|
  {
    var lines, lines' := body + ["\n"] + next, body + ["\n"] + other;
    if body == [] {
      assert lines[0] == lines'[0] == "\n" && lines[1] == next[0] && lines'[1] == other[0];
    } else {
      assert lines[0] == lines'[0] == body[0] && lines[1] == lines'[1];
      assert lines[1..] == body[1..] + ["\n"] + next && lines'[1..] == body[1..] + ["\n"] + other;
      var s := Step(body[0], Second(lines), r);
      if s.Next? {
        NextDoesNotMatter(body[1..], next, other, s.reading);
      }
    }
  }

  lemma StepKeepsSections(body: seq<string>, r: Reading, following: Option<string>)
    requires r.Valid() && body != [] && HeadingFirst(body, r.sections != [])
    requires following.Some? && !(H2 <= following.value)
    ensures match Step(body[0], following, r)
            case Next(r') =>
              && HeadingFirst(body[1..], r'.sections != [])
              && (r'.version.Some? <==> r.version.Some? || (RELEASE <= body[0] && SearchRelease(body[0]).Some?))
              && !(r.version.Some? && RELEASE <= body[0] && SearchRelease(body[0]).Some?)
            case Stop => false
            case Fail(e) =>
              e == DuplicateRelease && r.version.Some? && RELEASE <= body[0] && SearchRelease(body[0]).Some?
  {
  }

  /** A line that starts with a space never prolongs an item: it opens a section, or prolongs the
      heading of the open one, and without a tag list its words are then recorded twice. */
  lemma IndentedLineIsHeading(r: Reading, line: string)
    requires r.Valid() && line != "" && line[0] == ' ' && Strip(line) != ""
    ensures match AddLine(r, line)
            case Err(_) => false
            case Ok(r') =>
              var n := |r'.sections| - 1;
              && r'.inSection && n == |r.sections| - (if r.inSection then 1 else 0)
              && r'.sections[..n] == r.sections[..n]
              && r'.sections[n].items == (if r.inSection then r.sections[n].items else [])
              && (SearchBrackets(line).None? ==>
                    r'.sections[n].text
                    == (if r.inSection then r.sections[n].text else "") + line + " " + Strip(line))
  {
  }

  // ---------- each project's share ----------

  lemma {:induction false} ChangesOfBlocks(sections: seq<Block>, name: string, first: bool, c: string)
    ensures c in ChangesFrom(sections, name, first) <==>
            exists i :: 0 <= i < |sections| && c in BlockChanges(sections[i], name, first && i == 0)
    decreases |sections|
  {
    if sections != [] {
      var rest := sections[1..];
      ChangesOfBlocks(rest, name, false, c);
      if c in ChangesFrom(rest, name, false) {
        var i :| 0 <= i < |rest| && c in BlockChanges(rest[i], name, false);
        assert sections[i + 1] == rest[i];
      }
      if i :| 0 < i < |sections| && c in BlockChanges(sections[i], name, first && i == 0) {
        assert rest[i - 1] == sections[i];
      }
    }
  }

  /** The tags say that something concerns the project. */
  predicate IsFor(tags: seq<string>, name: string) {
    "all" in tags || name in tags
  }

  /** The section is for the project: it says so itself, and so does one of its items, if it has any. */
  predicate SectionIsFor(s: Block, name: string) {
    IsFor(s.appliesTo, name) && (s.items == [] || exists e <- s.items :: IsFor(e.appliesTo, name))
  }

  lemma KeptIsFor(s: Block, name: string)
    ensures Kept(s, name) <==> SectionIsFor(s, name)
  {
    assert forall tags :: Applies(tags, name) <==> IsFor(tags, name);
  }

  /** A line is among a project's changes if and only if it is the heading of a section for the project,
      or one of the items for it in such a section. Only the first section of all is not set off. */
  lemma ChangesAre(sections: seq<Block>, name: string, c: string)
    ensures c in Changes(sections, name) <==>
            exists i ::
              && 0 <= i < |sections| && SectionIsFor(sections[i], name)
              && (c == (if i == 0 then "" else "\n") + Strip(sections[i].text)
                  || exists e <- sections[i].items :: IsFor(e.appliesTo, name) && c == "- " + Strip(e.text))
  {
    ChangesOfBlocks(sections, name, true, c);
    forall i | 0 <= i < |sections|
      ensures c in BlockChanges(sections[i], name, i == 0) <==>
              && SectionIsFor(sections[i], name)
              && (c == (if i == 0 then "" else "\n") + Strip(sections[i].text)
                  || exists e <- sections[i].items :: IsFor(e.appliesTo, name) && c == "- " + Strip(e.text))
    {
      BlockChangesAre(sections[i], name, i == 0, c);
    }
  }

  lemma BlockChangesAre(s: Block, name: string, first: bool, c: string)
    ensures c in BlockChanges(s, name, first) <==>
            && SectionIsFor(s, name)
            && (c == (if first then "" else "\n") + Strip(s.text)
                || exists e <- s.items :: IsFor(e.appliesTo, name) && c == "- " + Strip(e.text))
  {
    KeptIsFor(s, name);
    ItemChangesAre(s.items, name, c);
    assert "" + Strip(s.text) == Strip(s.text);
    assert forall e <- s.items :: Applies(e.appliesTo, name) <==> IsFor(e.appliesTo, name);
  }

  lemma {:induction false} ItemChangesAre(items: seq<Entry>, name: string, c: string)
    ensures c in ItemChanges(items, name) <==>
            exists e <- items :: Applies(e.appliesTo, name) && c == "- " + Strip(e.text)
  {
    if items != [] {
      ItemChangesAre(items[1..], name, c);
      assert items == [items[0]] + items[1..];
    }
  }

  /** What is tagged for other projects alone leaves no trace in a project's changelog. */
  lemma {:induction false} NothingOfOthers(sections: seq<Block>, name: string, first: bool)
    requires forall s <- sections :: !Applies(s.appliesTo, name)
                                     || (s.items != [] && forall e <- s.items :: !Applies(e.appliesTo, name))
    ensures ChangesFrom(sections, name, first) == []
    decreases |sections|
  {
    if sections != [] {
      assert sections[0] in sections && forall s <- sections[1..] :: s in sections;
      NothingOfOthers(sections[1..], name, false);
    }
  }

  /** A pull request concerns a package if it touches the package's directory, or none of the three. */
  predicate Concerns(pr: PullRequest, pkg: string) {
    || TouchesDirectory(pr.files, pkg)
    || forall p <- PACKAGES :: !TouchesDirectory(pr.files, p)
  }

  /** Whatever order the tags are printed in, and though the full list is printed as `all`. */
  lemma TagsApply(pr: PullRequest, tags: seq<string>, pkg: string)
    requires ValidTags(pr, tags) && pkg in PACKAGES
    ensures Applies(tags, pkg) <==> Concerns(pr, pkg)
  {
    var pkgs := Concerned(pr.files);
    assert pkg in Elements(PACKAGES);
    assert pkg in pkgs <==> TouchesDirectory(pr.files, pkg);
    if pkgs == {} {
      forall p <- PACKAGES
        ensures !TouchesDirectory(pr.files, p)
      {
        assert p !in pkgs;
      }
    } else if pkgs != Elements(PACKAGES) {
      var p :| p in pkgs;
      assert TouchesDirectory(pr.files, p);
      assert forall t <- tags :: t in Elements(tags);
      assert pkg in tags <==> pkg in Elements(tags);
      AllIsNoPackage();
    }
  }

  lemma AllIsNoPackage()
    ensures ALL !in PACKAGES
  {
  }

  /** The changelog lines of the pull requests that concern a package. */
  function ConcernedLines(prs: seq<PullRequest>, pkg: string): seq<string> {
    if prs == [] then []
    else (if Concerns(prs[0], pkg) then ["- " + Strip(Description(prs[0]))] else [])
         + ConcernedLines(prs[1..], pkg)
  }

  predicate AnyConcerns(prs: seq<PullRequest>, pkg: string) {
    exists pr <- prs :: Concerns(pr, pkg)
  }

  /** What a package's changelog says of these lists: the headings under which something
      concerns it, and below each the requests that do, in order. The heading of the first list
      of the release is not set off by an empty line. */
  function Share(lists: seq<Named>, pkg: string, first: bool): seq<string>
    decreases |lists|
  {
    if lists == [] then []
    else if lists[0].prs == [] then Share(lists[1..], pkg, first)
    else
      (if AnyConcerns(lists[0].prs, pkg)
       then [(if first then "" else "\n") + lists[0].name + ":"] + ConcernedLines(lists[0].prs, pkg)
       else [])
      + Share(lists[1..], pkg, false)
  }

  lemma {:induction false} EntriesShare(ts: seq<Tagged>, pkg: string)
    requires ValidTagged(ts) && pkg in PACKAGES
    ensures ItemChanges(Entries(ts), pkg) == ConcernedLines(Requests(ts), pkg)
    ensures (exists e <- Entries(ts) :: Applies(e.appliesTo, pkg)) <==> AnyConcerns(Requests(ts), pkg)
    ensures ts == [] <==> Requests(ts) == []
    ensures ts == [] <==> Entries(ts) == []
  {
    if ts != [] {
      var t, rest := ts[0], ts[1..];
      assert t in ts && forall u <- rest :: u in ts;
      EntriesShare(rest, pkg);
      TagsApply(t.pr, t.tags, pkg);
      StripTrimmed(Description(t.pr));
      StripTrimmed(Strip(Description(t.pr)));
      assert Entries(ts) == [EntryOf(t)] + Entries(rest);
      assert Requests(ts) == [t.pr] + Requests(rest);
      if Applies(t.tags, pkg) {
        assert EntryOf(t) in Entries(ts) && t.pr in Requests(ts);
      }
      assert forall e <- Entries(ts) :: e == EntryOf(t) || e in Entries(rest);
      assert forall pr <- Requests(ts) :: pr == t.pr || pr in Requests(rest);
      assert forall e <- Entries(rest) :: e in Entries(ts);
      assert forall pr <- Requests(rest) :: pr in Requests(ts);
    }
  }

  lemma KeptIfConcerned(c: Category, pkg: string)
    requires ValidTagged(c.items) && c.items != [] && pkg in PACKAGES
    ensures Kept(BlockOf(c), pkg) <==> AnyConcerns(Requests(c.items), pkg)
  {
    EntriesShare(c.items, pkg);
    assert ALL in [ALL];
  }

  lemma BlockShare(c: Category, pkg: string, first: bool)
    requires PrintableCategory(c) && ValidTagged(c.items) && c.items != [] && pkg in PACKAGES
    ensures BlockChanges(BlockOf(c), pkg, first)
         == if AnyConcerns(Requests(c.items), pkg)
            then [(if first then "" else "\n") + c.name + ":"] + ConcernedLines(Requests(c.items), pkg)
            else []
  {
    KeptIfConcerned(c, pkg);
    EntriesShare(c.items, pkg);
    HeadingStripped(c.name);
    Regroup(if first then "" else "\n", c.name, ":");
    assert first ==> "" + (c.name + ":") == c.name + ":";
  }

  /** The changes collected for a package depend on nothing but the pull requests. */
  lemma {:induction false} ShareOfPackage(cs: seq<Category>, pkg: string, first: bool)
    requires PrintableCategories(cs) && (forall c <- cs :: ValidTagged(c.items)) && pkg in PACKAGES
    ensures ChangesFrom(BlocksOf(cs), pkg, first) == Share(NamedOf(cs), pkg, first)
    decreases |cs|
  {
    if cs != [] {
      var c := cs[0];
      assert c in cs && forall d <- cs[1..] :: d in cs;
      EntriesShare(c.items, pkg);
      assert NamedOf(cs)[0] == Named(c.name, Requests(c.items));
      assert NamedOf(cs)[1..] == NamedOf(cs[1..]);
      if c.items == [] {
        assert BlocksOf(cs) == BlocksOf(cs[1..]);
        ShareOfPackage(cs[1..], pkg, first);
      } else {
        assert BlocksOf(cs)[0] == BlockOf(c) && BlocksOf(cs)[1..] == BlocksOf(cs[1..]);
        BlockShare(c, pkg, first);
        ShareOfPackage(cs[1..], pkg, false);
      }
    }
  }

  predicate SingleLines(prs: seq<PullRequest>) {
    forall pr <- prs :: SingleLine(pr)
  }

  lemma {:induction false} TaggedPrintable(ts: seq<Tagged>)
    requires ValidTagged(ts) && SingleLines(Requests(ts))
    ensures forall t <- ts :: Printable(t)
  {
    if ts != [] {
      assert Requests(ts) == [ts[0].pr] + Requests(ts[1..]);
      assert ts[0].pr in Requests(ts) && forall pr <- Requests(ts[1..]) :: pr in Requests(ts);
      assert ts[0] in ts && forall t <- ts[1..] :: t in ts;
      ValidTagsAreTags(ts[0].pr, ts[0].tags);
      TaggedPrintable(ts[1..]);
      assert forall t <- ts :: t == ts[0] || t in ts[1..];
    }
  }

  lemma ShortHeading(name: string)
    requires name != "" && (forall c <- name :: 'a' <= c <= 'z' || 'A' <= c <= 'Z' || c == ' ')
    requires name[0] != ' ' && name[0] != 'R'
    ensures HeadingName(name)
  {
    assert RELEASE[0] == 'R' && name[0] in name;
    assert '\n' !in name && '[' !in name;
  }

  lemma FourHeadings()
    ensures HeadingName("Enhancements") && HeadingName("Bug fixes")
    ensures HeadingName("CI fixes and doc") && HeadingName("Maintenance")
  {
    ShortHeading("Enhancements");
    ShortHeading("Bug fixes");
    ShortHeading("CI fixes and doc");
    ShortHeading("Maintenance");
  }

  predicate AllSingleLines(lists: Lists) {
    && SingleLines(lists.enhancements) && SingleLines(lists.bugFixes)
    && SingleLines(lists.ciDocs) && SingleLines(lists.maintenance)
  }

  lemma {:induction false} NamedPrintable(cs: seq<Category>)
    requires AllTagged(cs) && forall l <- NamedOf(cs) :: HeadingName(l.name) && SingleLines(l.prs)
    ensures PrintableCategories(cs)
  {
    if cs != [] {
      assert cs[0] in cs && forall c <- cs[1..] :: c in cs;
      var named := NamedOf(cs);
      assert named[0] in named && named[1..] == NamedOf(cs[1..]) && forall l <- named[1..] :: l in named;
      NamedPrintable(cs[1..]);
      TaggedPrintable(cs[0].items);
    }
  }

  lemma PrintedLists(cs: seq<Category>, lists: Lists)
    requires PrintsAs(cs, lists) && AllSingleLines(lists)
    ensures PrintableCategories(cs)
  {
    FourHeadings();
    NamedPrintable(cs);
  }

  /** From the pull requests to the changelogs of the packages: after a release is written on
      top of an older changelog, reading it yields exactly the three packages, and each package
      is given exactly the requests that concern it. */
  lemma EveryPackageIsGiven(date: string, version: string, lists: Lists, cs: seq<Category>, older: string)
    requires '\n' !in date && Readable(version) && VersionScheme.Parse(version).Ok? && Unseen(older)
    requires PrintsAs(cs, lists) && AllSingleLines(lists)
    ensures match ReadNotes(ReleaseText(date, version, cs) + older)
            case Err(_) => false
            case Ok(notes) =>
              && notes.version.name == version
              && (forall pkg :: pkg in notes.projects <==> pkg in PACKAGES)
              && forall pkg <- PACKAGES :: Changes(notes.sections, pkg) == Share(NamedLists(lists), pkg, true)
  {
    PrintedLists(cs, lists);
    RoundTrip(date, version, cs, older);
    forall pkg <- PACKAGES
      ensures Changes(BlocksOf(cs), pkg) == Share(NamedLists(lists), pkg, true)
    {
      ShareOfPackage(cs, pkg, true);
    }
    SamePackages();
  }

  lemma SamePackages()
    ensures forall pkg :: pkg in READ_PROJECTS <==> pkg in PACKAGES
  {
  }

  /** The line that a request becomes. */
  function LineOf(pr: PullRequest): string {
    "- " + Strip(Description(pr))
  }

  lemma {:induction false} LineIsConcerned(prs: seq<PullRequest>, pr: PullRequest, pkg: string)
    requires forall other <- prs :: LineOf(other) == LineOf(pr) ==> other == pr
    ensures LineOf(pr) in ConcernedLines(prs, pkg) <==> pr in prs && Concerns(pr, pkg)
  {
    if prs != [] {
      var first := prs[0];
      assert first in prs && forall other <- prs[1..] :: other in prs;
      assert prs == [first] + prs[1..];
      LineIsConcerned(prs[1..], pr, pkg);
    }
  }

  lemma {:induction false} NoLinesOfOthers(prs: seq<PullRequest>, pkg: string)
    requires !AnyConcerns(prs, pkg)
    ensures ConcernedLines(prs, pkg) == []
  {
    if prs != [] {
      assert prs[0] in prs && forall pr <- prs[1..] :: pr in prs;
      NoLinesOfOthers(prs[1..], pkg);
    }
  }

  /** An item line is in a package's share if and only if it is among the lines of some list. */
  lemma {:induction false} LineInShare(lists: seq<Named>, pkg: string, first: bool, line: string)
    requires "- " <= line && forall l <- lists :: HeadingName(l.name)
    ensures line in Share(lists, pkg, first) <==> exists l <- lists :: line in ConcernedLines(l.prs, pkg)
    decreases |lists|
  {
    if lists != [] {
      var l, rest := lists[0], lists[1..];
      assert l in lists && lists == [l] + rest && forall m <- rest :: m in lists;
      var heading := (if first then "" else "\n") + l.name + ":";
      assert heading[0] == (if first then l.name[0] else '\n') && heading != line;
      LineInShare(rest, pkg, first, line);
      LineInShare(rest, pkg, false, line);
      if !AnyConcerns(l.prs, pkg) {
        NoLinesOfOthers(l.prs, pkg);
      }
    }
  }

  /** No other request of the lists has the same line. */
  predicate OwnLine(lists: seq<Named>, pr: PullRequest) {
    forall l <- lists, other <- l.prs :: LineOf(other) == LineOf(pr) ==> other == pr
  }

  predicate IsListed(lists: seq<Named>, pr: PullRequest) {
    exists l <- lists :: pr in l.prs
  }

  lemma LineIsShared(lists: seq<Named>, pkg: string, pr: PullRequest)
    requires OwnLine(lists, pr) && forall l <- lists :: HeadingName(l.name)
    ensures LineOf(pr) in Share(lists, pkg, true) <==> Concerns(pr, pkg) && IsListed(lists, pr)
  {
    LineInShare(lists, pkg, true, LineOf(pr));
    forall l <- lists
      ensures LineOf(pr) in ConcernedLines(l.prs, pkg) <==> pr in l.prs && Concerns(pr, pkg)
    {
      LineIsConcerned(l.prs, pr, pkg);
    }
  }

  lemma ListsAreNamed(lists: Lists)
    ensures forall l <- NamedLists(lists) :: HeadingName(l.name)
  {
    FourHeadings();
  }

  // ---------- one release after another ----------

  datatype Made = Made(date: string, version: string, cs: seq<Category>)

  /** The changelog after these releases, the last one on top. */
  function FileAfter(made: seq<Made>, base: string): string {
    if made == [] then base
    else
      var m := made[|made| - 1];
      ReleaseText(m.date, m.version, m.cs) + FileAfter(made[..|made| - 1], base)
  }

  lemma FileStartsWithHeader(made: seq<Made>, base: string)
    requires made != [] || H2 <= base
    ensures H2 <= FileAfter(made, base)
  {
  }

  lemma SuffixOfSuffix(a: string, mid: string, earlier: string)
    requires IsSuffix(earlier, mid)
    ensures IsSuffix(earlier, a + mid)
  {
  }

  lemma NewReleaseOnTop(made: seq<Made>, base: string) returns (release: string)
    requires made != []
    ensures FileAfter(made, base) == release + FileAfter(made[..|made| - 1], base)
  {
    var m := made[|made| - 1];
    release := ReleaseText(m.date, m.version, m.cs);
  }

  /** Every earlier state of the file is a suffix of every later one. */
  lemma {:induction false} EarlierIsSuffix(made: seq<Made>, n: nat, base: string)
    requires n <= |made|
    ensures IsSuffix(FileAfter(made[..n], base), FileAfter(made, base))
    decreases |made|
  {
    var earlier := FileAfter(made[..n], base);
    if n == |made| {
      assert made[..n] == made;
    } else {
      var before := made[..|made| - 1];
      assert before[..n] == made[..n];
      EarlierIsSuffix(before, n, base);
      var release := NewReleaseOnTop(made, base);
      SuffixOfSuffix(release, FileAfter(before, base), earlier);
    }
  }

  /** A run that was cut short leaves a damaged file, but the next complete release is read whole. */
  lemma ReadAfterCut(text: string, cut: Made, c: Category, next: Made)
    requires '\n' !in next.date && PrintableCategories(next.cs)
    requires Readable(next.version) && VersionScheme.Parse(next.version).Ok?
    ensures var damaged := Overwritten(text, PartText(cut.date, cut.version, cut.cs, c));
            ReadNotes(ReleaseText(next.date, next.version, next.cs) + damaged)
            == Ok(Notes(VersionScheme.Parse(next.version).value, READ_PROJECTS, BlocksOf(next.cs)))
  {
    var part := PartText(cut.date, cut.version, cut.cs, c);
    var damaged := Overwritten(text, part);
    PartStartsWithHeader(cut, c);
    assert H2 <= part <= damaged;
    ChangelogIsUnseen(damaged);
    RoundTrip(next.date, next.version, next.cs, damaged);
  }

  lemma PartStartsWithHeader(cut: Made, c: Category)
    ensures H2 <= PartText(cut.date, cut.version, cut.cs, c)
  {
  }

  /** After any sequence of releases on any file, the newest one is what the reader finds; only the
      first may come with something of the file it was written to, or not at all, if and only if
      that is not unseen. */
  lemma NewestIsRead(made: seq<Made>, base: string)
    requires made != []
    requires var m := made[|made| - 1];
             && '\n' !in m.date && PrintableCategories(m.cs)
             && Readable(m.version) && VersionScheme.Parse(m.version).Ok?
    ensures var m := made[|made| - 1];
            ReadNotes(FileAfter(made, base))
            == Ok(Notes(VersionScheme.Parse(m.version).value, READ_PROJECTS, BlocksOf(m.cs)))
            <==> |made| > 1 || Unseen(base)
  {
    var m, before := made[|made| - 1], made[..|made| - 1];
    var older := FileAfter(before, base);
    RoundTrip(m.date, m.version, m.cs, older);
    if |made| > 1 {
      FileStartsWithHeader(before, base);
      ChangelogIsUnseen(older);
    } else {
      assert older == base;
    }
  }
}
