/** Whole changelogs of any shape: what the reader makes of paragraphs of heading lines with items below
    them, whoever wrote them. */
module Documents {
  import opened Wrappers
  import opened Sequences
  import opened PyText
  import opened ChangelogModel
  import opened ReleaserSpec
  import opened ChangelogRoundTrip

  // ---------- bracketed lists ----------

  /** The pattern finds a list if and only if the text is a part without opening brackets, the list
      between brackets, without closing ones, and the rest. */
  lemma BracketsAre(s: string, group: string, tail: string)
    ensures SearchBrackets(s) == Some((group, tail))
            <==> ']' !in group && exists a :: '[' !in a && s == a + "[" + group + "]" + tail
  {
    if SearchBrackets(s) == Some((group, tail)) {
      CutSplits(s, '[');
      var (a, rest) := Cut(s, '[').value;
      CutSplits(rest, ']');
      assert s == a + "[" + group + "]" + tail by {
        Regroup4(a, "[", group, "]" + tail);
        Regroup(group, "]", tail);
        Regroup(a + "[" + group, "]", tail);
      }
    }
    if a :| ']' !in group && '[' !in a && s == a + "[" + group + "]" + tail {
      ListIsFound(a, group, tail);
    }
  }

  lemma ListIsFound(a: string, group: string, tail: string)
    requires '[' !in a && ']' !in group
    ensures SearchBrackets(a + "[" + group + "]" + tail) == Some((group, tail))
  {
    var rest := group + "]" + tail;
    assert a + "[" + group + "]" + tail == a + "[" + rest;
    CutAt(a, '[', rest);
    CutAt(group, ']', tail);
  }

  /** The tags of a list are its fields between commas, without the spaces around them. */
  lemma TagsAre(group: string, fields: seq<string>)
    requires fields != [] && forall f <- fields :: ',' !in f
    ensures TagsOf(Join(",", fields)) == seq(|fields|, i requires 0 <= i < |fields| => Strip(fields[i]))
  {
    JoinSplit(fields, ',');
  }

  /** An item with a list has the list's tags and the text behind it; any other is for all, and keeps its
      whole line. */
  lemma ItemIs(line: string)
    ensures match SearchBrackets(line)
            case Some((group, tail)) => ItemOf(line).appliesTo == TagsOf(group) && ItemOf(line).text == Strip(tail)
            case None => ItemOf(line).appliesTo == ["all"] && ItemOf(line).text == Strip(line)
  {
  }

  // ---------- paragraphs of heading lines ----------

  predicate IsHeadingLine(l: string) {
    Strip(l) != "" && l[0] != '-' && !(RELEASE <= l) && !(H2 <= l)
  }

  /** What a heading line adds to the text of its section: the line, and for an indented line without a
      list its words once more. */
  function PieceOf(l: string): string {
    if l != "" && l[0] == ' ' && SearchBrackets(l).None? then l + " " + Strip(l) else l
  }

  function TextOf(ls: seq<string>): string {
    if ls == [] then "" else PieceOf(ls[0]) + TextOf(ls[1..])
  }

  /** The tags of the last line that has a list. */
  function LastTags(ls: seq<string>, otherwise: seq<string>): seq<string> {
    if ls == [] then otherwise
    else
      match SearchBrackets(ls[|ls| - 1])
      case Some((group, _)) => TagsOf(group)
      case None => LastTags(ls[..|ls| - 1], otherwise)
  }

  function TagsAfter(l: string, before: seq<string>): seq<string> {
    match SearchBrackets(l)
    case Some((group, _)) => TagsOf(group)
    case None => before
  }

  lemma {:induction false} LastTagsCons(l: string, ls: seq<string>, otherwise: seq<string>)
    ensures LastTags([l] + ls, otherwise) == LastTags(ls, TagsAfter(l, otherwise))
    decreases |ls|
  {
    var all := [l] + ls;
    if ls == [] {
      assert all == [l] && all[..0] == [];
    } else {
      var n := |ls| - 1;
      assert all[n + 1] == ls[n] && all[..n + 1] == [l] + ls[..n];
      LastTagsCons(l, ls[..n], otherwise);
    }
  }

  lemma TextOfCons(l: string, ls: seq<string>)
    ensures TextOf([l] + ls) == PieceOf(l) + TextOf(ls)
  {
    assert ([l] + ls)[1..] == ls;
  }

  /** A section with more heading lines. */
  function ProlongedBlock(b: Block, ls: seq<string>): Block {
    Block(b.items, LastTags(ls, b.appliesTo), b.text + TextOf(ls))
  }

  lemma ProlongedCons(b: Block, l: string, ls: seq<string>)
    requires l != ""
    ensures ProlongedBlock(HeadingBlock(b, l), ls) == ProlongedBlock(b, [l] + ls)
  {
    LastTagsCons(l, ls, b.appliesTo);
    TextOfCons(l, ls);
    OneMoreLine(b, l);
    Regroup(b.text, PieceOf(l), TextOf(ls));
  }

  lemma OneMoreLine(b: Block, l: string)
    requires l != ""
    ensures HeadingBlock(b, l) == Block(b.items, TagsAfter(l, b.appliesTo), b.text + PieceOf(l))
  {
    Regroup4(b.text, l, " ", Strip(l));
    Regroup(l, " ", Strip(l));
  }

  lemma ProlongedByNothing(b: Block)
    ensures ProlongedBlock(b, []) == b
  {
    assert b.text + "" == b.text;
  }

  /** The last section with more heading lines, still open. */
  function Prolonged(r: Reading, ls: seq<string>): Reading
    requires r.sections != []
  {
    var n := |r.sections| - 1;
    r.(sections := r.sections[n := ProlongedBlock(r.sections[n], ls)])
  }

  lemma StepOver(l: string, rest: seq<string>, r: Reading)
    requires r.Valid() && !(RELEASE <= l) && rest != [] && !(H2 <= rest[0])
    ensures var s := AddLine(r, l);
            Scan([l] + rest, r) == if s.Ok? then Scan(rest, s.value) else Err(s.error)
  {
    var lines := [l] + rest;
    assert lines[1..] == rest && lines[1] == rest[0];
  }

  /** A heading line goes to the open section. */
  lemma StepOverHeading(l: string, rest: seq<string>, r: Reading)
    requires r.Valid() && r.inSection && IsHeadingLine(l) && rest != [] && !(H2 <= rest[0])
    ensures var n := |r.sections| - 1;
            Scan([l] + rest, r) == Scan(rest, r.(sections := r.sections[n := HeadingBlock(r.sections[n], l)]))
  {
    StepOver(l, rest, r);
  }

  lemma NoHeaderFirst(ls: seq<string>, rest: seq<string>)
    requires (forall l <- ls :: IsHeadingLine(l)) && rest != [] && !(H2 <= rest[0])
    ensures ls + rest != [] && !(H2 <= (ls + rest)[0])
  {
    if ls != [] {
      assert ls[0] in ls;
    }
  }

  lemma ProlongedStep(r: Reading, l: string, more: seq<string>)
    requires r.sections != [] && l != ""
    ensures var n := |r.sections| - 1;
            var r' := r.(sections := r.sections[n := HeadingBlock(r.sections[n], l)]);
            Prolonged(r', more) == Prolonged(r, [l] + more)
  {
    ProlongedCons(r.sections[|r.sections| - 1], l, more);
  }

  lemma OpenedProlonged(r: Reading, l: string, more: seq<string>)
    requires l != ""
    ensures Prolonged(Opened(r, HeadingBlock(Block([], ["all"], ""), l)), more) == Opened(r, SectionOf([l] + more))
  {
    ProlongedCons(Block([], ["all"], ""), l, more);
    assert "" + TextOf([l] + more) == TextOf([l] + more);
  }

  /** Heading lines behind one another prolong the open section. */
  lemma {:induction false} ParagraphGoesOn(ls: seq<string>, rest: seq<string>, r: Reading)
    requires r.Valid() && r.inSection && (forall l <- ls :: IsHeadingLine(l))
    requires rest != [] && !(H2 <= rest[0])
    ensures Scan(ls + rest, r) == Scan(rest, Prolonged(r, ls))
    decreases |ls|
  {
    var n := |r.sections| - 1;
    var b := r.sections[n];
    if ls == [] {
      assert ls + rest == rest;
      ProlongedByNothing(b);
      assert r.sections[n := b] == r.sections;
    } else {
      var l, more := ls[0], ls[1..];
      assert l in ls && forall x <- more :: x in ls;
      assert ls == [l] + more;
      Regroup([l], more, rest);
      NoHeaderFirst(more, rest);
      StepOverHeading(l, more + rest, r);
      ParagraphGoesOn(more, rest, r.(sections := r.sections[n := HeadingBlock(b, l)]));
      ProlongedStep(r, l, more);
    }
  }

  /** The section that a paragraph opens. */
  function SectionOf(ls: seq<string>): Block {
    Block([], LastTags(ls, ["all"]), TextOf(ls))
  }

  lemma OpensSection(l: string, rest: seq<string>, r: Reading)
    requires r.Valid() && !r.inSection && IsHeadingLine(l) && rest != [] && !(H2 <= rest[0])
    ensures Scan([l] + rest, r) == Scan(rest, Opened(r, HeadingBlock(Block([], ["all"], ""), l)))
  {
    StepOver(l, rest, r);
    assert AddHeading(r, l) == Opened(r, HeadingBlock(Block([], ["all"], ""), l));
  }

  /** From a reading with no open section, a paragraph of heading lines adds exactly one section, with
      the text of all its lines and the tags of the last line that has a list. */
  lemma ParagraphIsSection(ls: seq<string>, rest: seq<string>, r: Reading)
    requires r.Valid() && !r.inSection && ls != [] && (forall l <- ls :: IsHeadingLine(l))
    requires rest != [] && !(H2 <= rest[0])
    ensures Scan(ls + rest, r) == Scan(rest, Opened(r, SectionOf(ls)))
  {
    var l, more, b := ls[0], ls[1..], Block([], ["all"], "");
    assert l in ls && forall x <- more :: x in ls;
    assert ls == [l] + more;
    Regroup([l], more, rest);
    NoHeaderFirst(more, rest);
    OpensSection(l, more + rest, r);
    ParagraphGoesOn(more, rest, Opened(r, HeadingBlock(b, l)));
    OpenedProlonged(r, l, more);
  }

  /** Without lists and indentation: one section for all packages, with the text of the lines as they are. */
  lemma {:induction false} PlainParagraph(ls: seq<string>)
    requires forall l <- ls :: l != "" && l[0] != ' ' && SearchBrackets(l).None?
    ensures SectionOf(ls) == Block([], ["all"], Join("", ls))
    decreases |ls|
  {
    if ls != [] {
      var l, more := ls[0], ls[1..];
      assert l in ls && forall x <- more :: x in ls;
      PlainParagraph(more);
      assert ls == [l] + more;
      LastTagsCons(l, more, ["all"]);
      if more == [] {
        assert l + "" == l;
      }
    }
  }

  // ---------- whole documents ----------

  /** A paragraph with items below it. */
  datatype Part = Part(heading: seq<string>, items: seq<string>)

  predicate AreItemLines(ls: seq<string>) {
    forall l <- ls :: l != "" && l[0] == '-'
  }

  predicate IsPart(p: Part) {
    && p.heading != [] && (forall l <- p.heading :: IsHeadingLine(l))
    && AreItemLines(p.items)
  }

  function PartLines(p: Part): seq<string> {
    p.heading + ["\n"] + (if p.items == [] then [] else p.items + ["\n"])
  }

  function DocumentLines(parts: seq<Part>): seq<string> {
    if parts == [] then [] else PartLines(parts[0]) + DocumentLines(parts[1..])
  }

  function ItemsOf(ls: seq<string>): seq<Entry> {
    seq(|ls|, i requires 0 <= i < |ls| => ItemOf(ls[i]))
  }

  /** The section that a part should be read as. */
  function PartSection(p: Part): Block {
    Block(ItemsOf(p.items), LastTags(p.heading, ["all"]), TextOf(p.heading))
  }

  function PartSections(parts: seq<Part>): seq<Block> {
    seq(|parts|, i requires 0 <= i < |parts| => PartSection(parts[i]))
  }

  lemma BlankLine(rest: seq<string>, r: Reading)
    requires r.Valid() && rest != [] && !(H2 <= rest[0])
    ensures Scan(["\n"] + rest, r) == Scan(rest, r.(inSection := false))
  {
    StepOver("\n", rest, r);
    StripTrimmed("\n");
  }

  lemma ItemLineAdds(l: string, r: Reading)
    requires r.Valid() && r.sections != [] && !r.inSection && l != "" && l[0] == '-'
    ensures AddLine(r, l) == Ok(OnLast(r, [ItemOf(l)])) && !(RELEASE <= l) && !(H2 <= l)
  {
    NotBlank(l, '-');
    assert RELEASE[0] == 'R' && H2[0] == '#';
    assert AddLine(r, l) == AddItem(r, l);
  }

  lemma FirstIsItemLine(ls: seq<string>)
    requires ls != [] && AreItemLines(ls)
    ensures ls[0] != "" && ls[0][0] == '-' && AreItemLines(ls[1..])
  {
    assert ls[0] in ls && forall x <- ls[1..] :: x in ls;
  }

  lemma NoHeaderBelow(ls: seq<string>, rest: seq<string>)
    requires AreItemLines(ls) && rest != [] && !(H2 <= rest[0])
    ensures ls + rest != [] && !(H2 <= (ls + rest)[0])
  {
    if ls != [] {
      assert ls[0] in ls && H2[0] == '#';
    }
  }

  lemma StepOverItem(l: string, rest: seq<string>, r: Reading)
    requires r.Valid() && r.sections != [] && !r.inSection && l != "" && l[0] == '-'
    requires rest != [] && !(H2 <= rest[0])
    ensures Scan([l] + rest, r) == Scan(rest, OnLast(r, [ItemOf(l)]))
  {
    ItemLineAdds(l, r);
    StepOver(l, rest, r);
  }

  lemma ItemsOfCons(l: string, ls: seq<string>)
    ensures ItemsOf([l] + ls) == [ItemOf(l)] + ItemsOf(ls)
  {
  }

  lemma {:induction false} ItemLinesAdd(ls: seq<string>, rest: seq<string>, r: Reading)
    requires r.Valid() && r.sections != [] && !r.inSection && AreItemLines(ls)
    requires rest != [] && !(H2 <= rest[0])
    ensures Scan(ls + rest, r) == Scan(rest, OnLast(r, ItemsOf(ls)))
    decreases |ls|
  {
    if ls == [] {
      assert ls + rest == rest && ItemsOf(ls) == [];
      OnLastNothing(r);
    } else {
      var l, more := ls[0], ls[1..];
      FirstIsItemLine(ls);
      assert ls == [l] + more;
      Regroup([l], more, rest);
      NoHeaderBelow(more, rest);
      StepOverItem(l, more + rest, r);
      ItemLinesAdd(more, rest, OnLast(r, [ItemOf(l)]));
      OnLastTwice(r, [ItemOf(l)], ItemsOf(more));
      ItemsOfCons(l, more);
    }
  }

  lemma ItemsOnSection(r: Reading, p: Part)
    ensures OnLast(Closed(r, [SectionOf(p.heading)]), ItemsOf(p.items)) == Closed(r, [PartSection(p)])
  {
    assert [] + ItemsOf(p.items) == ItemsOf(p.items);
  }

  /** One part, up to its last empty line. */
  lemma PartIsRead(p: Part, rest: seq<string>, r: Reading)
    requires r.Valid() && !r.inSection && IsPart(p) && rest != [] && !(H2 <= rest[0])
    ensures Scan(PartLines(p) + rest, r) == Scan(rest, Closed(r, [PartSection(p)]))
  {
    var r' := Closed(r, [SectionOf(p.heading)]);
    if p.items == [] {
      assert PartLines(p) + rest == p.heading + (["\n"] + rest);
      ParagraphIsSection(p.heading, ["\n"] + rest, r);
      BlankLine(rest, Opened(r, SectionOf(p.heading)));
      assert ItemsOf([]) == [];
    } else {
      var below := p.items + (["\n"] + rest);
      assert PartLines(p) + rest == p.heading + (["\n"] + below);
      assert p.items[0] in p.items && below[0] == p.items[0];
      ParagraphIsSection(p.heading, ["\n"] + below, r);
      BlankLine(below, Opened(r, SectionOf(p.heading)));
      ItemLinesAdd(p.items, ["\n"] + rest, r');
      BlankLine(rest, OnLast(r', ItemsOf(p.items)));
      ItemsOnSection(r, p);
    }
  }

  /** The last part, whose last empty line is looked past. */
  lemma LastPartIsRead(p: Part, next: seq<string>, r: Reading)
    requires r.Valid() && !r.inSection && IsPart(p) && next != [] && H2 <= next[0]
    ensures var r' := Scan(PartLines(p) + next, r);
            r'.Ok? && r'.value.(inSection := false) == Closed(r, [PartSection(p)])
  {
    var stop := ["\n"] + next;
    assert stop[1] == next[0] && stop[0] == "\n";
    var r' := Closed(r, [SectionOf(p.heading)]);
    if p.items == [] {
      assert PartLines(p) + next == p.heading + stop;
      ParagraphIsSection(p.heading, stop, r);
      assert ItemsOf([]) == [];
    } else {
      var below := p.items + stop;
      assert PartLines(p) + next == p.heading + (["\n"] + below);
      assert p.items[0] in p.items && below[0] == p.items[0];
      ParagraphIsSection(p.heading, ["\n"] + below, r);
      BlankLine(below, Opened(r, SectionOf(p.heading)));
      ItemLinesAdd(p.items, stop, r');
      ItemsOnSection(r, p);
    }
  }

  predicate AreParts(parts: seq<Part>) {
    forall p <- parts :: IsPart(p)
  }

  lemma FirstIsPart(parts: seq<Part>)
    requires parts != [] && AreParts(parts)
    ensures IsPart(parts[0]) && AreParts(parts[1..])
  {
    assert parts[0] in parts && forall q <- parts[1..] :: q in parts;
  }

  lemma PartSectionsCons(parts: seq<Part>)
    requires parts != []
    ensures PartSections(parts) == [PartSection(parts[0])] + PartSections(parts[1..])
  {
  }

  /** Every changelog made of such parts is read part by part: the reader adds exactly their sections, in
      order, and nothing else. */
  lemma {:induction false} DocumentIsRead(parts: seq<Part>, next: seq<string>, r: Reading)
    requires r.Valid() && !r.inSection && parts != [] && AreParts(parts)
    requires next != [] && H2 <= next[0]
    ensures var r' := Scan(DocumentLines(parts) + next, r);
            r'.Ok? && r'.value.(inSection := false) == Closed(r, PartSections(parts))
    decreases |parts|
  {
    var p, others := parts[0], parts[1..];
    FirstIsPart(parts);
    PartSectionsCons(parts);
    if others == [] {
      assert DocumentLines(parts) + next == PartLines(p) + next;
      LastPartIsRead(p, next, r);
    } else {
      FirstIsPart(others);
      PartsStart(others, next);
      Regroup(PartLines(p), DocumentLines(others), next);
      PartIsRead(p, DocumentLines(others) + next, r);
      DocumentIsRead(others, next, Closed(r, [PartSection(p)]));
      ClosedTwice(r, [PartSection(p)], PartSections(others));
    }
  }

  lemma PartsStart(parts: seq<Part>, next: seq<string>)
    requires parts != [] && IsPart(parts[0])
    ensures DocumentLines(parts) + next != [] && !(H2 <= (DocumentLines(parts) + next)[0])
  {
    var first := parts[0].heading[0];
    assert first in parts[0].heading;
    assert PartLines(parts[0])[0] == first;
  }
}
