/** Releases that were edited by hand: what the reading script finds in them, and what each project is
    given of it. */
module HandWritten {
  import opened Wrappers
  import opened Sequences
  import opened PyText
  import opened ChangelogModel
  import opened ReleaserSpec
  import opened ReleaseLines
  import opened UpdateChangelog
  import opened ChangelogRoundTrip
  import opened ReleaseTheorems
  import opened Documents
  import VersionScheme

  // ---------- a paragraph ----------

  /** Lines of plain text: not blank, not indented, no items, no header, no list. */
  predicate IsPlainLine(l: string) {
    Strip(l) != "" && l[0] != '-' && l[0] != ' ' && !(RELEASE <= l) && !(H2 <= l) && !('[' in l)
  }

  /** A paragraph of plain text is one section for all packages, with all its lines. */
  lemma PlainParagraphIsRead(ls: seq<string>, rest: seq<string>, r: Reading)
    requires r.Valid() && !r.inSection && ls != [] && (forall l <- ls :: IsPlainLine(l))
    requires rest != [] && !(H2 <= rest[0])
    ensures Scan(ls + (["\n"] + rest), r)
         == Scan(rest, Reading(false, r.version, r.projects, r.sections + [Block([], ["all"], Join("", ls))]))
  {
    forall l <- ls
      ensures IsHeadingLine(l) && l != "" && SearchBrackets(l).None?
    {
      assert l != "" by {
        StripTrimmed(l);
      }
      CutSplits(l, '[');
    }
    ParagraphIsSection(ls, ["\n"] + rest, r);
    PlainParagraph(ls);
    BlankLine(rest, Opened(r, SectionOf(ls)));
  }

  // ---------- a whole release ----------

  /** The lines of a changelog whose newest release is made of these parts, with some text in front. */
  predicate IsChangelog(text: string, intro: seq<string>, date: string, version: string, parts: seq<Part>,
                        next: seq<string>) {
    && (forall l <- intro :: !(H2 <= l))
    && parts != [] && AreParts(parts) && next != [] && H2 <= next[0]
    && Lines(text)
       == intro + ([H2 + date + "\n"] + (["\n", ReleaseLine(version) + "\n", "\n"] + (DocumentLines(parts) + next)))
  }

  /** Lines in front of the first header do not matter. */
  lemma {:induction false} IntroIsSkipped(intro: seq<string>, header: string, lines: seq<string>)
    requires (forall l <- intro :: !(H2 <= l)) && H2 <= header
    ensures AfterHeader(intro + ([header] + lines)) == Some(lines)
    decreases |intro|
  {
    if intro == [] {
      assert intro + ([header] + lines) == [header] + lines;
      assert ([header] + lines)[1..] == lines;
    } else {
      assert intro[0] in intro && forall l <- intro[1..] :: l in intro;
      assert (intro + ([header] + lines))[1..] == intro[1..] + ([header] + lines);
      IntroIsSkipped(intro[1..], header, lines);
    }
  }

  /** A changelog without any header has no release. */
  lemma {:induction false} NoHeaderNoRelease(lines: seq<string>)
    ensures AfterHeader(lines).None? <==> forall l <- lines :: !(H2 <= l)
  {
    if lines != [] {
      var first, rest := lines[0], lines[1..];
      assert lines == [first] + rest && first in lines && forall l <- rest :: l in lines;
      NoHeaderNoRelease(rest);
      assert forall l <- lines :: l == first || l in rest;
    }
  }

  lemma ReleaseStepOver(l: string, rest: seq<string>, r: Reading)
    requires r.Valid() && RELEASE <= l
    ensures var s := AddRelease(r, l);
            Scan([l] + rest, r) == if s.Ok? then Scan(rest, s.value) else Err(s.error)
  {
    assert ([l] + rest)[0] == l && ([l] + rest)[1..] == rest;
  }

  lemma ReleaseLineStep(version: string, rest: seq<string>)
    requires '\n' !in version
    ensures var l := ReleaseLine(version) + "\n";
            RELEASE <= l && !(H2 <= l) && Scan([l] + rest, START) == Scan(rest, Opening(version))
  {
    var l := ReleaseLine(version) + "\n";
    ReleaseLineIsOneLine(version);
    PrefixBefore(RELEASE, ReleaseLine(version), '\n');
    assert l[0] == 'R' && H2[0] == '#';
    ReleaseStepOver(l, rest, START);
  }

  lemma BelowReleaseLine(version: string, lines: seq<string>)
    requires '\n' !in version && lines != [] && !(H2 <= lines[0])
    ensures Scan(["\n", ReleaseLine(version) + "\n", "\n"] + lines, START) == Scan(lines, Opening(version))
  {
    var l, tail := ReleaseLine(version) + "\n", ["\n"] + lines;
    assert ["\n", l, "\n"] + lines == ["\n"] + ([l] + tail);
    ReleaseLineStep(version, tail);
    BlankLine([l] + tail, START);
    BlankLine(lines, Opening(version));
  }

  /** Whoever wrote it: a release made of parts is read as exactly its sections. */
  lemma HandWrittenIsRead(text: string, intro: seq<string>, date: string, version: string, parts: seq<Part>,
                          next: seq<string>)
    requires IsChangelog(text, intro, date, version, parts, next)
    requires Readable(version) && VersionScheme.Parse(version).Ok?
    ensures ReadNotes(text) == Ok(Notes(VersionScheme.Parse(version).value, READ_PROJECTS, PartSections(parts)))
  {
    var lines := DocumentLines(parts) + next;
    var below := ["\n", ReleaseLine(version) + "\n", "\n"] + lines;
    assert H2 <= H2 + date + "\n";
    IntroIsSkipped(intro, H2 + date + "\n", below);
    ReadableIsOneLine(version);
    FirstIsPart(parts);
    PartsStart(parts, next);
    BelowReleaseLine(version, lines);
    OpeningIs(version);
    DocumentIsRead(parts, next, Opening(version));
    assert [] + PartSections(parts) == PartSections(parts);
  }

  /** What each project is given of it: the text of a part that is for the project, and its items that
      are. */
  lemma HandWrittenReachesProject(text: string, intro: seq<string>, date: string, version: string, parts: seq<Part>,
                                  next: seq<string>, name: string, c: string)
    requires IsChangelog(text, intro, date, version, parts, next)
    requires Readable(version) && VersionScheme.Parse(version).Ok?
    ensures ReadNotes(text).Ok?
    ensures c in Changes(ReadNotes(text).value.sections, name) <==>
            exists i ::
              && 0 <= i < |parts| && SectionIsFor(PartSection(parts[i]), name)
              && (c == (if i == 0 then "" else "\n") + Strip(TextOf(parts[i].heading))
                  || exists l <- parts[i].items ::
                       IsFor(ItemOf(l).appliesTo, name) && c == "- " + Strip(ItemOf(l).text))
  {
    HandWrittenIsRead(text, intro, date, version, parts, next);
    var sections := PartSections(parts);
    ChangesAre(sections, name, c);
    forall i | 0 <= i < |parts|
      ensures (exists e <- sections[i].items :: IsFor(e.appliesTo, name) && c == "- " + Strip(e.text))
              <==> exists l <- parts[i].items :: IsFor(ItemOf(l).appliesTo, name) && c == "- " + Strip(ItemOf(l).text)
    {
      ItemsOfMember(parts[i].items, name, c);
    }
  }

  lemma ItemsOfMember(ls: seq<string>, name: string, c: string)
    ensures (exists e <- ItemsOf(ls) :: IsFor(e.appliesTo, name) && c == "- " + Strip(e.text))
            <==> exists l <- ls :: IsFor(ItemOf(l).appliesTo, name) && c == "- " + Strip(ItemOf(l).text)
  {
    var items := ItemsOf(ls);
    if e :| e in items && IsFor(e.appliesTo, name) && c == "- " + Strip(e.text) {
      var k :| 0 <= k < |items| && items[k] == e;
      assert ls[k] in ls;
    }
    if l :| l in ls && IsFor(ItemOf(l).appliesTo, name) && c == "- " + Strip(ItemOf(l).text) {
      var k :| 0 <= k < |ls| && ls[k] == l;
      assert items[k] in items;
    }
  }
}
