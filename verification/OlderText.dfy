/** What the reader makes of the text that a new release is written on top of, when that text does
    not begin with the header of a release. */
module OlderText {
  import opened Wrappers
  import opened PyText
  import opened ChangelogModel
  import opened ReleaserSpec
  import opened ChangelogRoundTrip

  predicate IsRelease(line: string) {
    RELEASE <= line && SearchRelease(line).Some?
  }

  /** Lines that are read without a trace: blank ones, and those that start with `Release` but are
      no release line. */
  predicate Quiet(line: string) {
    Strip(line) == "" || (RELEASE <= line && !IsRelease(line))
  }

  /** The next line opens a release, and this one lets the reader see it. */
  predicate Stops(lines: seq<string>) {
    |lines| > 1 && !(RELEASE <= lines[0]) && H2 <= lines[1]
  }

  /** The lines that are read before the reader stops. */
  function InFront(lines: seq<string>): seq<string> {
    if lines == [] || Stops(lines) then [] else [lines[0]] + InFront(lines[1..])
  }

  /** All that is read is quiet, and the reader stops, or ends on a line that it reads without
      looking past it. */
  predicate PassedOver(lines: seq<string>) {
    && (forall l <- InFront(lines) :: Quiet(l))
    && (InFront(lines) == lines ==> lines != [] && RELEASE <= lines[|lines| - 1])
  }

  /** The text below the empty line that ends a release leaves no trace in it. */
  predicate Unseen(older: string) {
    PassedOver(["\n"] + Lines(older))
  }

  lemma PassedOverCons(lines: seq<string>)
    requires lines != [] && !Stops(lines)
    ensures |lines| > 1 ==> (PassedOver(lines) <==> Quiet(lines[0]) && PassedOver(lines[1..]))
    ensures |lines| == 1 ==> (PassedOver(lines) <==> Quiet(lines[0]) && RELEASE <= lines[0])
  {
    var rest := lines[1..];
    assert InFront(lines) == [lines[0]] + InFront(rest);
    assert InFront(lines) == lines <==> InFront(rest) == rest by {
      assert lines == [lines[0]] + rest;
      assert InFront(lines)[1..] == InFront(rest);
    }
  }

  lemma {:induction false} ScanPassesOver(lines: seq<string>, r: Reading)
    requires lines != [] && r.Valid() && !r.inSection && PassedOver(lines)
    ensures Scan(lines, r) == Ok(r)
  {
    if !Stops(lines) {
      PassedOverCons(lines);
      if RELEASE <= lines[0] {
        StartsWithInk(lines[0]);
      }
      assert Step(lines[0], Second(lines), r) == Next(r);
      if |lines| > 1 {
        ScanPassesOver(lines[1..], r);
      }
    }
  }

  lemma StartsWithInk(line: string)
    requires RELEASE <= line
    ensures Strip(line) != ""
  {
    assert line[0] == 'R';
    NotBlank(line, 'R');
  }

  /** The number of sections and items. */
  function Size(sections: seq<Block>): nat {
    if sections == [] then 0
    else
      var n := |sections| - 1;
      Size(sections[..n]) + 1 + |sections[n].items|
  }

  lemma LineGrows(line: string, r: Reading)
    requires r.Valid()
    ensures var r' := AddLine(r, line);
            r'.Ok? ==>
              && Size(r'.value.sections) >= Size(r.sections)
              && (Strip(line) != "" && !r.inSection ==> Size(r'.value.sections) > Size(r.sections))
  {
    var r' := AddLine(r, line);
    if Strip(line) != "" && r'.Ok? {
      var s, s' := r.sections, r'.value.sections;
      var n := |s'| - 1;
      assert s'[..n] == s[..n];
      assert |s| == n ==> s[..n] == s;
    }
  }

  lemma {:induction false} ScanGrows(lines: seq<string>, r: Reading)
    requires r.Valid()
    ensures var r' := Scan(lines, r); r'.Ok? ==> Size(r'.value.sections) >= Size(r.sections)
    decreases |lines|
  {
    if lines != [] {
      LineGrows(lines[0], r);
      var s := Step(lines[0], Second(lines), r);
      if s.Next? {
        ScanGrows(lines[1..], s.reading);
      }
    }
  }

  /** Anything else that is read adds something to the release above, or is refused. */
  lemma {:induction false} ScanLeavesTrace(lines: seq<string>, r: Reading)
    requires lines != [] && r.Valid() && !r.inSection && r.version.Some? && !PassedOver(lines)
    ensures var r' := Scan(lines, r); r'.Ok? ==> Size(r'.value.sections) > Size(r.sections)
    decreases |lines|
  {
    if !Stops(lines) {
      PassedOverCons(lines);
      var s := Step(lines[0], Second(lines), r);
      if s.Next? {
        if Quiet(lines[0]) {
          if RELEASE <= lines[0] {
            StartsWithInk(lines[0]);
          }
          assert s.reading == r;
          if |lines| > 1 {
            ScanLeavesTrace(lines[1..], r);
          }
        } else {
          LineGrows(lines[0], r);
          ScanGrows(lines[1..], s.reading);
        }
      }
    }
  }

  lemma BlankLineFirst(older: string)
    ensures Lines("\n" + older) == ["\n"] + Lines(older)
  {
    assert "" + "\n" + older == "\n" + older;
    LinesCons("", older);
    assert "" + "\n" == "\n";
  }

  /** Reading on below a release leaves it as it is if and only if the older text is unseen. */
  lemma OlderIsUnseen(older: string, r: Reading)
    requires r.Valid() && !r.inSection
    ensures Unseen(older) ==> ScanText("\n" + older, r) == Ok(r)
    ensures !Unseen(older) && r.version.Some? ==>
              var r' := ScanText("\n" + older, r); r'.Ok? ==> r'.value.sections != r.sections
  {
    BlankLineFirst(older);
    var lines := ["\n"] + Lines(older);
    if PassedOver(lines) {
      ScanPassesOver(lines, r);
    } else if r.version.Some? {
      ScanLeavesTrace(lines, r);
    }
  }

  /** A changelog is unseen; an empty file is not. */
  lemma ChangelogIsUnseen(older: string)
    ensures H2 <= older ==> Unseen(older)
    ensures older == "" ==> !Unseen(older)
  {
    var lines := ["\n"] + Lines(older);
    assert lines[0][0] == '\n';
    if H2 <= older {
      LinesHead(older, H2);
      assert lines[1] == Lines(older)[0];
      assert Stops(lines);
    } else if older == "" {
      assert lines[1..] == [];
      PassedOverCons(lines);
    }
  }

  /** A title above the first release is taken for a section of the release that is written on top
      of it. */
  lemma TitleIsTaken(title: string, next: string, r: Reading)
    requires r.Valid() && !r.inSection && H2 <= next
    requires title != "" && '\n' !in title && '[' !in title && !IsSpace(title[0])
    requires title[0] != '-' && title[0] != '#' && !(RELEASE <= title)
    ensures ScanText("\n" + (title + "\n" + ("\n" + next)), r) == Ok(Opened(r, Block([], [ALL], title + "\n")))
  {
    var below := title + "\n" + ("\n" + next);
    assert below[0] == title[0];
    BlankText(below, r);
    EmptyLineFirst(next);
    StepText(title, "\n" + next, r);
    TitleAdds(title, r);
    assert "" + "\n" + next == "\n" + next;
    StopText("", next, Opened(r, Block([], [ALL], title + "\n")));
  }

  lemma PlainTitle(line: string)
    requires line != "" && '[' !in line && line[0] != ' '
    ensures HeadingBlock(NewBlock(), line) == Block([], [ALL], line)
  {
    CutSplits(line, '[');
    assert "" + line == line;
  }

  lemma TitleAdds(title: string, r: Reading)
    requires r.Valid() && !r.inSection
    requires title != "" && '[' !in title && !IsSpace(title[0]) && title[0] != '-'
    ensures AddLine(r, title + "\n") == Ok(Opened(r, Block([], [ALL], title + "\n")))
  {
    var line := title + "\n";
    assert line[0] == title[0];
    NotBlank(line, title[0]);
    PlainTitle(line);
    NewSection(r, line);
  }

  /** Outside a section, a heading line opens one. */
  lemma NewSection(r: Reading, line: string)
    requires r.Valid() && !r.inSection && line != ""
    ensures AddHeading(r, line) == Opened(r, HeadingBlock(NewBlock(), line))
  {
  }
}
