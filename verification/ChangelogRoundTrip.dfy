/** What `update_changelog.py` writes, `releaser.py` reads back. */
module ChangelogRoundTrip {
  import opened Wrappers
  import opened Sequences
  import opened PyText
  import opened ChangelogModel
  import opened UpdateChangelog
  import opened ReleaserSpec
  import opened ReleaseLines
  import VersionScheme

  // ---------- scanning a text line by line ----------

  function ScanText(text: string, r: Reading): Result<Reading, ReadError>
    requires r.Valid()
  {
    Scan(Lines(text), r)
  }

  lemma PrefixBefore(p: string, line: string, c: char)
    requires c !in p
    ensures p <= line + [c] <==> p <= line
  {
    var s := line + [c];
    assert s[|line|] == c;
    assert p <= s ==> forall i :: 0 <= i < |p| ==> p[i] == s[i] && p[i] in p;
  }

  /** A text opens a release if and only if its first line does. */
  lemma HeaderOfText(s: string)
    requires s != ""
    ensures Lines(s) != [] && (H2 <= Lines(s)[0] <==> H2 <= s)
  {
    LinesFirstChar(s);
    CutSplits(s, '\n');
    assert Lines(s)[0] <= s;
    if H2 <= s {
      LinesHead(s, H2);
    }
  }

  /** A line that is neither a release line nor followed by a heading is processed. */
  lemma StepText(line: string, rest: string, r: Reading)
    requires r.Valid() && '\n' !in line && !(RELEASE <= line)
    requires rest != "" && !(H2 <= rest)
    ensures ScanText(line + "\n" + rest, r)
         == match AddLine(r, line + "\n")
            case Ok(r') => ScanText(rest, r')
            case Err(e) => Err(e)
  {
    LinesCons(line, rest);
    HeaderOfText(rest);
    PrefixBefore(RELEASE, line, '\n');
    var lines := Lines(line + "\n" + rest);
    assert lines[1..] == Lines(rest);
    assert lines[1] == Lines(rest)[0];
  }

  lemma BlankText(rest: string, r: Reading)
    requires r.Valid() && rest != "" && !(H2 <= rest)
    ensures ScanText("\n" + rest, r) == ScanText(rest, r.(inSection := false))
  {
    assert "" + "\n" + rest == "\n" + rest;
    StepText("", rest, r);
    assert "" + "\n" == "\n";
    StripTrimmed("\n");
  }

  lemma EmptyLineFirst(rest: string)
    ensures !(H2 <= "\n" + rest)
  {
    assert ("\n" + rest)[0] == '\n' && H2[0] == '#';
  }

  /** The line before the next release is looked past, not processed. */
  lemma StopText(line: string, older: string, r: Reading)
    requires r.Valid() && '\n' !in line && !(RELEASE <= line) && H2 <= older
    ensures ScanText(line + "\n" + older, r) == Ok(r)
  {
    LinesCons(line, older);
    LinesHead(older, H2);
    PrefixBefore(RELEASE, line, '\n');
    var lines := Lines(line + "\n" + older);
    assert lines[1] == Lines(older)[0];
  }

  lemma ReleaseStep(line: string, rest: string, r: Reading)
    requires r.Valid() && '\n' !in line && RELEASE <= line
    ensures ScanText(line + "\n" + rest, r)
         == match AddRelease(r, line + "\n")
            case Ok(r') => ScanText(rest, r')
            case Err(e) => Err(e)
  {
    LinesCons(line, rest);
    PrefixBefore(RELEASE, line, '\n');
    assert Lines(line + "\n" + rest)[1..] == Lines(rest);
  }

  // ---------- an item line ----------

  predicate IsTag(t: string) {
    t != "" && Trimmed(t) && ',' !in t && ']' !in t && '\n' !in t
  }

  predicate AreTags(tags: seq<string>) {
    tags != [] && forall t <- tags :: IsTag(t)
  }

  lemma PackagesAreTags()
    ensures AreTags(PACKAGES) && IsTag(ALL)
  {
  }

  lemma ValidTagsAreTags(pr: PullRequest, tags: seq<string>)
    requires ValidTags(pr, tags)
    ensures AreTags(tags)
  {
    PackagesAreTags();
    forall t <- tags
      ensures IsTag(t)
    {
      assert t in Elements(tags);
    }
    assert tags == [] ==> Elements(tags) == {};
  }

  lemma TagsOfCons(a: string, rest: string)
    requires ',' !in a
    ensures TagsOf(a + "," + rest) == [Strip(a)] + TagsOf(rest)
  {
    CutAt(a, ',', rest);
    assert Split(a + "," + rest, ',') == [a] + Split(rest, ',');
  }

  lemma TagsOfOne(a: string)
    requires ',' !in a
    ensures TagsOf(a) == [Strip(a)]
  {
    CutSplits(a, ',');
  }

  lemma PaddedTag(pad: string, t: string)
    requires IsTag(t) && AllSpace(pad) && ',' !in pad
    ensures Strip(pad + t) == t && ',' !in pad + t
  {
    assert pad + t + "" == pad + t;
    StripIs(pad, t, "");
  }

  /** The printed list of tags splits into the tags again. */
  lemma {:induction false} TagsRead(pad: string, tags: seq<string>)
    requires AreTags(tags) && AllSpace(pad) && ',' !in pad
    ensures TagsOf(pad + Join(", ", tags)) == tags
    decreases |tags|
  {
    var t, others := tags[0], tags[1..];
    assert tags == [t] + others;
    PaddedTag(pad, t);
    if others == [] {
      TagsOfOne(pad + t);
    } else {
      var rest := " " + Join(", ", others);
      assert pad + Join(", ", tags) == (pad + t) + "," + rest;
      assert AreTags(others);
      TagsRead(" ", others);
      TagsOfCons(pad + t, rest);
    }
  }

  lemma {:induction false} JoinAvoids(tags: seq<string>, c: char)
    requires c != ',' && c != ' ' && forall t <- tags :: c !in t
    ensures c !in Join(", ", tags)
  {
    if |tags| > 1 {
      JoinAvoids(tags[1..], c);
    }
  }

  function EntryOf(t: Tagged): Entry {
    Entry(t.tags, Strip(Description(t.pr)))
  }

  predicate Printable(t: Tagged) {
    AreTags(t.tags) && SingleLine(t.pr)
  }

  /** An item line is read as the item it was printed from: the first bracket on it is the tag list. */
  lemma ItemRead(t: Tagged)
    requires Printable(t)
    ensures ItemOf(ItemText(t)) == EntryOf(t)
  {
    var group, desc := Join(", ", t.tags), Description(t.pr);
    JoinAvoids(t.tags, ']');
    var tail := " " + desc + "\n";
    assert ItemText(t) == "- " + "[" + (group + "]" + tail);
    CutAt("- ", '[', group + "]" + tail);
    CutAt(group, ']', tail);
    assert "" + group == group;
    TagsRead("", t.tags);
    StripPadded(" ", desc, "\n");
  }

  lemma NotBlank(line: string, c: char)
    requires c in line && !IsSpace(c)
    ensures Strip(line) != ""
  {
    StripTrimmed(line);
  }

  lemma ItemLineIsOneLine(t: Tagged)
    requires Printable(t)
    ensures '\n' !in ItemLine(t)
  {
    JoinAvoids(t.tags, '\n');
    assert '\n' !in Description(t.pr);
  }

  function WithItems(b: Block, items: seq<Entry>): Block {
    b.(items := b.items + items)
  }

  function Entries(ts: seq<Tagged>): seq<Entry> {
    if ts == [] then [] else [EntryOf(ts[0])] + Entries(ts[1..])
  }

  function OnLast(r: Reading, items: seq<Entry>): Reading
    requires r.sections != []
  {
    var n := |r.sections| - 1;
    Reading(false, r.version, r.projects, r.sections[n := WithItems(r.sections[n], items)])
  }

  lemma ItemStep(t: Tagged, rest: string, r: Reading)
    requires r.Valid() && r.sections != [] && !r.inSection
    requires Printable(t) && rest != "" && rest[0] != '#'
    ensures ScanText(ItemText(t) + rest, r) == ScanText(rest, OnLast(r, [EntryOf(t)]))
  {
    ItemLineIsOneLine(t);
    assert ItemLine(t)[0] == '-';
    StepText(ItemLine(t), rest, r);
    NotBlank(ItemText(t), '-');
    ItemRead(t);
    assert AddLine(r, ItemText(t)) == AddItem(r, ItemText(t));
  }

  lemma OnLastNothing(r: Reading)
    requires r.sections != [] && !r.inSection
    ensures OnLast(r, []) == r
  {
    var n := |r.sections| - 1;
    assert r.sections[n].items + [] == r.sections[n].items;
    assert r.sections[n := r.sections[n]] == r.sections;
  }

  lemma OnLastTwice(r: Reading, xs: seq<Entry>, ys: seq<Entry>)
    requires r.sections != []
    ensures OnLast(OnLast(r, xs), ys) == OnLast(r, xs + ys)
  {
    var n := |r.sections| - 1;
    assert r.sections[n].items + xs + ys == r.sections[n].items + (xs + ys);
  }

  /** The items of a category are added, in order, to the section that is open. */
  lemma {:induction false} ItemsRead(ts: seq<Tagged>, rest: string, r: Reading)
    requires r.Valid() && r.sections != [] && !r.inSection
    requires forall t <- ts :: Printable(t)
    requires rest != "" && rest[0] != '#'
    ensures ScanText(ItemsText(ts) + rest, r) == ScanText(rest, OnLast(r, Entries(ts)))
    decreases |ts|
  {
    if ts == [] {
      assert ItemsText(ts) + rest == rest;
      OnLastNothing(r);
    } else {
      var rest' := ItemsText(ts[1..]) + rest;
      assert ItemsText(ts) + rest == ItemText(ts[0]) + rest';
      ItemsStart(ts[1..], rest);
      ItemStep(ts[0], rest', r);
      var r' := OnLast(r, [EntryOf(ts[0])]);
      ItemsRead(ts[1..], rest, r');
      OnLastTwice(r, [EntryOf(ts[0])], Entries(ts[1..]));
    }
  }

  lemma ItemsStart(ts: seq<Tagged>, rest: string)
    requires rest != "" && rest[0] != '#'
    ensures ItemsText(ts) + rest != "" && (ItemsText(ts) + rest)[0] != '#'
  {
  }

  // ---------- a category ----------

  /** A name that makes a heading: one line of its own, without a tag list. */
  predicate HeadingName(name: string) {
    && name != "" && '\n' !in name && '[' !in name
    && name[0] != '-' && name[0] != '#' && !IsSpace(name[0]) && !(RELEASE <= name)
  }

  function HeadingBlockOf(name: string): Block {
    Block([], [ALL], name + ":\n")
  }

  function Opened(r: Reading, b: Block): Reading {
    Reading(true, r.version, r.projects, r.sections + [b])
  }

  lemma HeadingStripped(name: string)
    requires HeadingName(name)
    ensures Strip(name + ":\n") == name + ":"
  {
    assert "" + (name + ":") + "\n" == name + ":\n";
    assert (name + ":")[0] == name[0];
    StripIs("", name + ":", "\n");
  }

  lemma HeadingAdds(name: string, r: Reading)
    requires r.Valid() && !r.inSection && HeadingName(name)
    ensures AddLine(r, name + ":\n") == Ok(Opened(r, HeadingBlockOf(name)))
  {
    var line := name + ":\n";
    assert line[0] == name[0];
    NotBlank(line, name[0]);
    CutSplits(line, '[');
    assert "" + line == line;
    assert SearchBrackets(line) == None;
    assert HeadingBlock(NewBlock(), line) == HeadingBlockOf(name);
    assert AddHeading(r, line) == Opened(r, HeadingBlockOf(name));
  }

  lemma HeadingStep(name: string, rest: string, r: Reading)
    requires r.Valid() && !r.inSection && HeadingName(name)
    requires rest != "" && rest[0] != '#'
    ensures ScanText(name + ":\n" + rest, r) == ScanText(rest, Opened(r, HeadingBlockOf(name)))
  {
    var line := name + ":";
    assert line + "\n" + rest == name + ":\n" + rest;
    assert line + "\n" == name + ":\n";
    assert ':' !in RELEASE;
    PrefixBefore(RELEASE, name, ':');
    StepText(line, rest, r);
    HeadingAdds(name, r);
  }

  predicate PrintableCategory(c: Category) {
    HeadingName(c.name) && forall t <- c.items :: Printable(t)
  }

  function BlockOf(c: Category): Block {
    Block(Entries(c.items), [ALL], c.name + ":\n")
  }

  function Closed(r: Reading, bs: seq<Block>): Reading {
    Reading(false, r.version, r.projects, r.sections + bs)
  }

  lemma HeadingRead(name: string, items: string, r: Reading)
    requires r.Valid() && HeadingName(name)
    requires items != "" && items[0] != '#'
    ensures ScanText(HeadingText(name) + items, r) == ScanText(items, Closed(r, [HeadingBlockOf(name)]))
  {
    var afterName := "\n" + items;
    var fromName := name + ":\n" + afterName;
    assert HeadingText(name) + items == "\n" + fromName;
    assert fromName[0] == name[0];
    BlankText(fromName, r);
    HeadingStep(name, afterName, r.(inSection := false));
    BlankText(items, Opened(r, HeadingBlockOf(name)));
  }

  /** A category is read as one section with its items. */
  lemma CategoryRead(c: Category, rest: string, r: Reading)
    requires r.Valid() && PrintableCategory(c)
    requires rest != "" && rest[0] != '#'
    ensures ScanText(CategoryText(c) + rest, r) == ScanText(rest, Closed(r, [BlockOf(c)]))
  {
    var items := ItemsText(c.items) + rest;
    Regroup(HeadingText(c.name), ItemsText(c.items), rest);
    ItemsStart(c.items, rest);
    HeadingRead(c.name, items, r);
    var r' := Closed(r, [HeadingBlockOf(c.name)]);
    ItemsRead(c.items, rest, r');
    ItemsOnHeading(r, c);
  }

  lemma ItemsOnHeading(r: Reading, c: Category)
    ensures OnLast(Closed(r, [HeadingBlockOf(c.name)]), Entries(c.items)) == Closed(r, [BlockOf(c)])
  {
    assert [] + Entries(c.items) == Entries(c.items);
  }

  function BlocksOf(cs: seq<Category>): seq<Block> {
    if cs == [] then []
    else MaybeBlock(cs[0]) + BlocksOf(cs[1..])
  }

  lemma {:induction false} CategoriesStart(cs: seq<Category>, rest: string)
    requires rest != "" && rest[0] != '#'
    ensures CategoriesText(cs) + rest != "" && (CategoriesText(cs) + rest)[0] != '#'
  {
    if cs != [] {
      CategoriesStart(cs[1..], rest);
      Regroup(MaybeText(cs[0]), CategoriesText(cs[1..]), rest);
      MaybeStart(cs[0], CategoriesText(cs[1..]) + rest);
    }
  }

  lemma MaybeStart(c: Category, rest: string)
    requires rest != "" && rest[0] != '#'
    ensures MaybeText(c) + rest != "" && (MaybeText(c) + rest)[0] != '#'
  {
  }

  lemma ClosedTwice(r: Reading, xs: seq<Block>, ys: seq<Block>)
    ensures Closed(Closed(r, xs), ys) == Closed(r, xs + ys)
  {
  }

  /** The printed categories are read as their non-empty ones, in order. */
  lemma {:induction false} CategoriesRead(cs: seq<Category>, rest: string, r: Reading)
    requires r.Valid() && !r.inSection
    requires forall c <- cs :: PrintableCategory(c)
    requires rest != "" && rest[0] != '#'
    ensures ScanText(CategoriesText(cs) + rest, r) == ScanText(rest, Closed(r, BlocksOf(cs)))
    decreases |cs|
  {
    if cs == [] {
      assert CategoriesText(cs) + rest == rest;
      assert Closed(r, []) == r;
    } else {
      var rest' := CategoriesText(cs[1..]) + rest;
      CategoriesStart(cs[1..], rest);
      Regroup(MaybeText(cs[0]), CategoriesText(cs[1..]), rest);
      MaybeRead(cs[0], rest', r);
      CategoriesRead(cs[1..], rest, Closed(r, MaybeBlock(cs[0])));
      ClosedTwice(r, MaybeBlock(cs[0]), BlocksOf(cs[1..]));
    }
  }

  function MaybeBlock(c: Category): seq<Block> {
    if c.items == [] then [] else [BlockOf(c)]
  }

  lemma MaybeRead(c: Category, rest: string, r: Reading)
    requires r.Valid() && !r.inSection && PrintableCategory(c)
    requires rest != "" && rest[0] != '#'
    ensures ScanText(MaybeText(c) + rest, r) == ScanText(rest, Closed(r, MaybeBlock(c)))
  {
    if c.items == [] {
      assert MaybeText(c) + rest == rest;
      assert Closed(r, []) == r;
    } else {
      CategoryRead(c, rest, r);
    }
  }

  // ---------- the release line ----------

  lemma {:induction false} WordsFirst(w: string, rest: string)
    requires w != "" && forall c <- w :: !IsSpace(c)
    requires rest == "" || IsSpace(rest[0])
    ensures Words(w + rest) == [w] + Words(rest)
  {
    TakeWhileIs(IsNoSpace, w, rest);
    assert (w + rest)[0] == w[0] && w[0] in w;
  }

  /** The projects named on a printed release line, without `mamba`. */
  const READ_PROJECTS: seq<string> := ["libmamba", "micromamba", "libmambapy"]

  lemma WordsSpace(rest: string)
    ensures Words(" " + rest) == Words(rest)
  {
  }

  lemma WordsNext(w: string, rest: string)
    requires w != "" && forall c <- w :: !IsSpace(c)
    requires rest == "" || IsSpace(rest[0])
    ensures Words("  " + w + rest) == [w] + Words(rest)
  {
    assert "  " + w + rest == " " + (" " + (w + rest));
    WordsSpace(" " + (w + rest));
    WordsSpace(w + rest);
    WordsFirst(w, rest);
  }

  lemma CommasConcat(a: string, b: string)
    ensures CommasToSpaces(a + b) == CommasToSpaces(a) + CommasToSpaces(b)
  {
  }

  lemma NoCommas(s: string)
    requires ',' !in s
    ensures CommasToSpaces(s) == s
  {
  }

  predicate IsName(w: string) {
    w != "" && ',' !in w && forall c <- w :: !IsSpace(c)
  }

  /** One more name behind a comma. */
  lemma WordsBehindComma(w: string, rest: string)
    requires IsName(w)
    requires CommasToSpaces(rest) == "" || IsSpace(CommasToSpaces(rest)[0])
    ensures Words(CommasToSpaces(", " + (w + rest))) == [w] + Words(CommasToSpaces(rest))
    ensures IsSpace(CommasToSpaces(", " + (w + rest))[0])
  {
    var below := CommasToSpaces(rest);
    CommasConcat(w, rest);
    NoCommas(w);
    CommasConcat(", ", w + rest);
    assert CommasToSpaces(", ") == "  ";
    assert "  " + (w + below) == "  " + w + below;
    WordsNext(w, below);
  }

  lemma FourWords(a: string, b: string, c: string, d: string)
    requires IsName(a) && IsName(b) && IsName(c) && IsName(d)
    ensures Words(CommasToSpaces(a + (", " + (b + (", " + (c + (", " + (d + "")))))))) == [a, b, c, d]
  {
    var t2 := ", " + (d + "");
    var t1 := ", " + (c + t2);
    var t0 := ", " + (b + t1);
    assert CommasToSpaces("") == "";
    WordsBehindComma(d, "");
    WordsBehindComma(c, t2);
    WordsBehindComma(b, t1);
    CommasConcat(a, t0);
    NoCommas(a);
    WordsFirst(a, CommasToSpaces(t0));
  }

  lemma ProjectsSplit()
    ensures PROJECTS == "libmamba" + (", " + ("mamba" + (", " + ("micromamba" + (", " + ("libmambapy" + ""))))))
  {
  }

  lemma WordsRead()
    ensures Words(CommasToSpaces(PROJECTS)) == ["libmamba", "mamba", "micromamba", "libmambapy"]
  {
    ProjectsSplit();
    FourWords("libmamba", "mamba", "micromamba", "libmambapy");
  }

  lemma KeysAppend(words: seq<string>, w: string)
    ensures var keys := ProjectKeys(words);
            ProjectKeys(words + [w]) == if w == "mamba" || w in keys then keys else keys + [w]
  {
  }

  lemma KeysOfFour(a: string, b: string, c: string, d: string)
    requires b == "mamba" && a != b && c != b && d != b && a != c && a != d && c != d
    ensures ProjectKeys([a, b, c, d]) == [a, c, d]
  {
    KeysAppend([], a);
    KeysAppend([a], b);
    KeysAppend([a, b], c);
    KeysAppend([a, b, c], d);
    assert [] + [a] == [a] && [a] + [b] == [a, b] && [a, b] + [c] == [a, b, c] && [a, b, c] + [d] == [a, b, c, d];
  }

  lemma ProjectsRead()
    ensures ProjectKeys(Words(CommasToSpaces(PROJECTS))) == READ_PROJECTS
  {
    WordsRead();
    assert |"libmamba"| == 8 && |"mamba"| == 5 && |"micromamba"| == 10 && |"libmambapy"| == 10;
    assert "micromamba"[0] != "libmambapy"[0];
    KeysOfFour("libmamba", "mamba", "micromamba", "libmambapy");
  }
}
