/** The release script itself (`releaser.py`): objects filled in line by line. */
module Releaser {
  import opened Wrappers
  import opened Sequences
  import opened PyText
  import opened ChangelogModel
  import opened ReleaserSpec
  import VersionScheme

  class Item {
    var appliesTo: seq<string>
    var text: string

    constructor ()
      ensures appliesTo == [ALL] && text == ""
    {
      appliesTo, text := [ALL], "";
    }

    ghost predicate Is(e: Entry)
      reads this
    {
      appliesTo == e.appliesTo && text == e.text
    }
  }

  class Section {
    var items: seq<Item>
    var appliesTo: seq<string>
    var text: string

    constructor ()
      ensures items == [] && appliesTo == [ALL] && text == ""
    {
      items, appliesTo, text := [], [ALL], "";
    }

    ghost predicate Is(b: Block)
      reads this, items
    {
      && appliesTo == b.appliesTo && text == b.text
      && |items| == |b.items|
      && forall i :: 0 <= i < |items| ==> items[i].Is(b.items[i])
    }

    /** A heading line is added to the text and may set the tags. */
    method AddHeading(line: string, ghost b: Block)
      requires Is(b) && line != ""
      modifies this
      ensures Is(HeadingBlock(b, line)) && items == old(items)
    {
      text := text + line;
      match SearchBrackets(line)
      case Some((group, _)) =>
        appliesTo := TagsOf(group);
      case None =>
        if line[0] == ' ' {
          text := text + " " + Strip(line);
        }
    }

    /** An item line becomes a new item. */
    method AddItem(line: string, ghost b: Block)
      requires Is(b)
      modifies this
      ensures Is(ItemBlock(b, line))
      ensures forall i <- items :: i in old(items) || fresh(i)
    {
      var item := new Item();
      items := items + [item];
      match SearchBrackets(line)
      case Some((group, tail)) =>
        item.text := Strip(tail);
        item.appliesTo := TagsOf(group);
      case None =>
        item.text := Strip(line);
        item.appliesTo := [ALL];
    }
  }

  ghost function ItemsOf(sections: seq<Section>): set<Item>
    reads sections
  {
    set s, i | s in sections && i in s.items :: i
  }

  /** The section objects hold these blocks, each in an object of its own. */
  ghost predicate Hold(sections: seq<Section>, blocks: seq<Block>)
    reads sections, ItemsOf(sections)
  {
    && |sections| == |blocks|
    && (forall i, j :: 0 <= i < j < |sections| ==> sections[i] != sections[j])
    && forall i :: 0 <= i < |sections| ==>
         var s := sections[i];
         assert s in sections && forall x <- s.items :: x in ItemsOf(sections);
         s.Is(blocks[i])
  }

  method TextLine(inSection: bool, sections: seq<Section>, line: string, ghost r: Reading)
      returns (inSection': bool, sections': seq<Section>, error: Option<ReadError>)
    requires r.Valid() && r.inSection == inSection && Hold(sections, r.sections)
    modifies sections
    ensures match AddLine(r, line)
            case Err(e) => error == Some(e)
            case Ok(r') => error == None && inSection' == r'.inSection && Hold(sections', r'.sections)
    ensures forall s <- sections' :: s in sections || fresh(s)
    ensures forall i <- ItemsOf(sections') :: i in old(ItemsOf(sections)) || fresh(i)
  {
    inSection', sections', error := inSection, sections, None;
    if Strip(line) == "" || line[0] == '-' {
      inSection' := false;
    }
    if Strip(line) == "" {
      return;
    }
    if line[0] != '-' {
      if !inSection' {
        var s := new Section();
        sections' := sections' + [s];
        inSection' := true;
      }
      var n := |sections'| - 1;
      sections'[n].AddHeading(line, if inSection then r.sections[n] else NewBlock());
    } else if sections' == [] {
      error := Some(ItemBeforeSection);
    } else {
      var n := |sections'| - 1;
      sections'[n].AddItem(line, r.sections[n]);
    }
  }

  /** What a project of the release is given: its version and its list of changes. */
  class ProjectEntry {
    var version: string
    var changes: seq<string>

    constructor (version: string)
      ensures this.version == version && changes == []
    {
      this.version, changes := version, [];
    }
  }

  /** One entry of its own for every key. */
  ghost predicate Separate(keys: seq<string>, changes: map<string, ProjectEntry>) {
    && NoDuplicates(keys)
    && changes.Keys == (set k | k in keys)
    && forall k, l | k in changes && l in changes && k != l :: changes[k] != changes[l]
  }

  /** Make an entry for each project; a project that occurs again gets a new entry in its old place. */
  method NewEntries(words: seq<string>, version: string)
      returns (keys: seq<string>, changes: map<string, ProjectEntry>)
    ensures keys == ProjectKeys(words) && Separate(keys, changes)
    ensures forall k <- changes :: fresh(changes[k]) && changes[k].version == version && changes[k].changes == []
  {
    keys, changes := [], map[];
    for i := 0 to |words|
      invariant keys == ProjectKeys(words[..i]) && Separate(keys, changes)
      invariant forall k <- changes ::
                  fresh(changes[k]) && changes[k].version == version && changes[k].changes == []
    {
      assert words[..i + 1][..i] == words[..i];
      ProjectKeysOnce(words[..i + 1]);
      if words[i] != "mamba" {
        var entry := new ProjectEntry(version);
        if words[i] !in changes {
          keys := keys + [words[i]];
        }
        changes := changes[words[i] := entry];
      }
    }
    assert words[..|words|] == words;
  }

  /** Does any item apply to the project? */
  method AnyApplies(s: Section, name: string, ghost b: Block) returns (any: bool)
    requires s.Is(b)
    ensures any <==> exists i <- b.items :: Applies(i.appliesTo, name)
  {
    any := false;
    for i := 0 to |s.items|
      invariant any <==> exists k :: 0 <= k < i && Applies(b.items[k].appliesTo, name)
    {
      any := any || Applies(s.items[i].appliesTo, name);
    }
  }

  method ItemLines(s: Section, name: string, ghost b: Block) returns (lines: seq<string>)
    requires s.Is(b)
    ensures lines == ItemChanges(b.items, name)
  {
    lines := [];
    for i := 0 to |s.items|
      invariant lines == ItemChanges(b.items[..i], name)
    {
      assert b.items[..i + 1] == b.items[..i] + [b.items[i]];
      ItemChangesAppend(b.items[..i], b.items[i], name);
      if Applies(s.items[i].appliesTo, name) {
        lines := lines + ["- " + Strip(s.items[i].text)];
      }
    }
    assert b.items[..|s.items|] == b.items;
  }

  method SectionChanges(s: Section, isFirst: bool, name: string, ghost b: Block) returns (added: seq<string>)
    requires s.Is(b)
    ensures added == BlockChanges(b, name, isFirst)
  {
    var applies := Applies(s.appliesTo, name);
    if applies && |s.items| > 0 {
      applies := AnyApplies(s, name, b);
    }
    if !applies {
      return [];
    }
    var heading := if isFirst then Strip(s.text) else "\n" + Strip(s.text);
    var lines := ItemLines(s, name, b);
    added := [heading] + lines;
  }

  /** One turn of the loop over the sections. */
  method AddSectionChanges(s: Section, isFirst: bool, name: string, entry: ProjectEntry, ghost b: Block)
    requires s.Is(b)
    modifies entry`changes
    ensures entry.changes == old(entry.changes) + BlockChanges(b, name, isFirst)
  {
    var added := SectionChanges(s, isFirst, name, b);
    entry.changes := entry.changes + added;
  }

  /** Fill the list of one project; `modifies` leaves every other project as it was. */
  method PopulateChanges(name: string, sections: seq<Section>, entry: ProjectEntry, ghost blocks: seq<Block>)
    requires Hold(sections, blocks)
    modifies entry`changes
    ensures entry.changes == old(entry.changes) + Changes(blocks, name)
  {
    ghost var before := entry.changes;
    for i := 0 to |sections|
      invariant Hold(sections, blocks)
      invariant entry.changes == before + ChangesFrom(blocks[..i], name, true)
    {
      HeldAt(sections, blocks, i);
      AddSectionChanges(sections[i], sections[i] == sections[0], name, entry, blocks[i]);
      TakeNext(blocks, i, name, before);
    }
    assert blocks[..|sections|] == blocks;
  }

  lemma HeldAt(sections: seq<Section>, blocks: seq<Block>, i: nat)
    requires Hold(sections, blocks) && i < |sections|
    ensures sections[i].Is(blocks[i]) && (sections[i] == sections[0] <==> i == 0)
  {
  }

  lemma TakeNext(blocks: seq<Block>, i: nat, name: string, before: seq<string>)
    requires i < |blocks|
    ensures before + ChangesFrom(blocks[..i + 1], name, true)
         == before + ChangesFrom(blocks[..i], name, true) + BlockChanges(blocks[i], name, i == 0)
  {
    assert blocks[..i + 1] == blocks[..i] + [blocks[i]];
    ChangesFromAppend(blocks[..i], blocks[i], name, true);
  }

  /** The text that is put in front of a project's changelog. */
  method RenderProject(name: string, version: string, date: string, changes: seq<string>) returns (res: string)
    ensures res == ProjectText(name, version, date, changes)
  {
    var body := RenderChanges(changes);
    res := "## " + name + " " + version + " (" + date + ")\n\n" + body + "\n";
  }

  method RenderChanges(changes: seq<string>) returns (res: string)
    ensures res == ChangesText(None, changes)
  {
    res := "";
    for i := 0 to |changes|
      invariant res == ChangesText(None, changes[..i])
    {
      var c := changes[i];
      assert changes[..i + 1] == changes[..i] + [c];
      ChangesTextAppend(None, changes[..i], c);
      var text := c + "\n";
      if "-" <= c {
        if i > 0 && !("- " <= changes[i - 1]) {
          text := "\n" + c + "\n";
        }
      }
      res := res + text;
    }
    assert changes[..|changes|] == changes;
  }

  /** The lines behind the first one that opens a release. */
  method FindRelease(contents: seq<string>) returns (lines: Option<seq<string>>)
    ensures lines == AfterHeader(contents)
  {
    for i := 0 to |contents|
      invariant AfterHeader(contents) == AfterHeader(contents[i..])
    {
      assert contents[i..][1..] == contents[i + 1..];
      if H2 <= contents[i] {
        return Some(contents[i + 1..]);
      }
    }
    return None;
  }

  /** What the loop over the lines has found so far. */
  class Findings {
    var inSection: bool
    var sections: seq<Section>
    var version: Option<string>
    var keys: seq<string>
    var changes: map<string, ProjectEntry>

    constructor ()
      ensures Is(START)
      ensures sections == [] && changes == map[]
    {
      inSection, sections, version, keys, changes := false, [], None, [], map[];
    }

    ghost predicate Is(r: Reading)
      reads this, sections, ItemsOf(sections), changes.Values
    {
      SectionsAre(r) && EntriesAre(r)
    }

    /** The objects that later lines may change. */
    ghost function Objects(): set<object>
      reads this
    {
      (set s: object | s in sections) + (set k | k in changes :: changes[k] as object)
    }

    ghost predicate SectionsAre(r: Reading)
      reads this`inSection, this`sections, sections, ItemsOf(sections)
    {
      r.Valid() && inSection == r.inSection && Hold(sections, r.sections)
    }

    ghost predicate EntriesAre(r: Reading)
      reads this`version, this`keys, this`changes, changes.Values
    {
      && version == r.version && keys == r.projects && Separate(keys, changes)
      && (forall k <- changes ::
            version.Some? && changes[k].version == version.value && changes[k].changes == [])
    }

    /** A line that starts with `Release`. */
    method ReleaseLine(line: string, ghost r: Reading) returns (error: Option<ReadError>)
      requires r.Valid() && EntriesAre(r)
      modifies this`version, this`keys, this`changes
      ensures changes == old(changes) || forall k <- changes :: fresh(changes[k])
      ensures match AddRelease(r, line)
              case Err(e) => error == Some(e)
              case Ok(r') => error == None && EntriesAre(r')
    {
      match SearchRelease(line)
      case None =>
        return None;
      case Some((v, names)) =>
        if version != None {
          return Some(DuplicateRelease);
        }
        version := Some(v);
        keys, changes := NewEntries(Words(CommasToSpaces(names)), v);
        return None;
    }

    method OtherLine(line: string, ghost r: Reading) returns (error: Option<ReadError>)
      requires SectionsAre(r)
      modifies this`inSection, this`sections, sections
      ensures forall s <- sections :: s in old(sections) || fresh(s)
      ensures forall i <- ItemsOf(sections) :: i in old(ItemsOf(sections)) || fresh(i)
      ensures match AddLine(r, line)
              case Err(e) => error == Some(e)
              case Ok(r') => error == None && SectionsAre(r')
    {
      inSection, sections, error := TextLine(inSection, sections, line, r);
    }

    method KeepRelease(line: string, ghost r: Reading) returns (error: Option<ReadError>)
      requires Is(r)
      modifies this`version, this`keys, this`changes
      ensures forall o <- Objects() :: o in old(Objects()) || fresh(o)
      ensures match AddRelease(r, line)
              case Err(e) => error == Some(e)
              case Ok(r') => error == None && Is(r')
    {
      error := ReleaseLine(line, r);
    }

    method KeepText(line: string, ghost r: Reading) returns (error: Option<ReadError>)
      requires Is(r)
      modifies this`inSection, this`sections, sections
      ensures forall o <- Objects() :: o in old(Objects()) || fresh(o)
      ensures match AddLine(r, line)
              case Err(e) => error == Some(e)
              case Ok(r') => error == None && Is(r')
    {
      error := OtherLine(line, r);
    }

    method ProcessLine(line: string, following: Option<string>, ghost r: Reading)
        returns (stop: bool, error: Option<ReadError>)
      requires Is(r)
      modifies this, Objects()
      ensures forall o <- Objects() :: o in old(Objects()) || fresh(o)
      ensures match Step(line, following, r)
              case Next(r') => !stop && error == None && Is(r')
              case Stop => stop && error == None && Is(r)
              case Fail(e) => error == Some(e)
    {
      if RELEASE <= line {
        error := KeepRelease(line, r);
        return false, error;
      }
      if following == None {
        return false, Some(EndOfFile);
      }
      if H2 <= following.value {
        return true, None;
      }
      error := KeepText(line, r);
      return false, error;
    }
  }

  /** Go through the lines until the next release opens. */
  method ScanLines(contents: seq<string>) returns (f: Findings, error: Option<ReadError>)
    ensures fresh(f) && fresh(f.Objects())
    ensures match Scan(contents, START)
            case Err(e) => error == Some(e)
            case Ok(r) => error == None && f.Is(r)
  {
    f := new Findings();
    error := None;
    ghost var r, goal := START, Scan(contents, START);
    for i := 0 to |contents|
      invariant fresh(f) && fresh(f.Objects())
      invariant error == None && f.Is(r)
      invariant goal == Scan(contents[i..], r)
    {
      var following := Second(contents[i..]);
      ScanStep(contents, i, r);
      var stop;
      stop, error := f.ProcessLine(contents[i], following, r);
      if error.Some? || stop {
        return;
      }
      r := Step(contents[i], following, r).reading;
    }
  }

  lemma ScanStep(contents: seq<string>, i: nat, r: Reading)
    requires i < |contents| && r.Valid()
    ensures Scan(contents[i..], r)
         == match Step(contents[i], Second(contents[i..]), r)
            case Next(r') => Scan(contents[i + 1..], r')
            case Stop => Ok(r)
            case Fail(e) => Err(e)
  {
  }

  /** Read the newest release of a changelog and give every project its changes. */
  method ReadRelease(changelog: string)
      returns (error: Option<ReadError>, info: VersionScheme.VersionInfo,
               keys: seq<string>, changes: map<string, ProjectEntry>)
    ensures match ReadNotes(changelog)
            case Err(e) => error == Some(e)
            case Ok(notes) => error == None && Given(notes, info, keys, changes)
  {
    keys, changes := [], map[];
    var lines := FindRelease(Lines(changelog));
    if lines.None? {
      info := new VersionScheme.VersionInfo();
      return Some(NoHeader), info, keys, changes;
    }
    var f;
    f, error := ScanLines(lines.value);
    if error.Some? {
      info := new VersionScheme.VersionInfo();
      return;
    }
    assert forall k <- f.changes :: f.changes[k] in f.Objects();
    error, info := Publish(f, Scan(lines.value, START).value);
    keys, changes := f.keys, f.changes;
  }

  /** Every project has been given the version and its share of the sections. */
  ghost predicate Given(notes: Notes, info: VersionScheme.VersionInfo, keys: seq<string>,
                        changes: map<string, ProjectEntry>)
    reads info, changes.Values
  {
    && info.name == notes.version.name
    && keys == notes.projects && Separate(keys, changes)
    && forall k <- changes ::
         changes[k].version == notes.version.name && changes[k].changes == Changes(notes.sections, k)
  }

  method Publish(f: Findings, ghost r: Reading) returns (error: Option<ReadError>, info: VersionScheme.VersionInfo)
    requires f.Is(r)
    modifies f.changes.Values
    ensures match Finish(r)
            case Err(e) => error == Some(e)
            case Ok(notes) => error == None && Given(notes, info, f.keys, f.changes)
  {
    info := new VersionScheme.VersionInfo();
    if f.version.None? {
      return Some(NoRelease), info;
    }
    var bad := info.Init(f.version.value);
    if bad.Some? {
      return Some(BadVersion(bad.value)), info;
    }
    PopulateAll(f.keys, f.sections, f.changes, r.sections);
    return None, info;
  }

  /** Fill the entry of one key and no other. */
  method PopulateKey(k: string, sections: seq<Section>, entry: ProjectEntry, ghost keys: seq<string>,
                     ghost changes: map<string, ProjectEntry>, ghost blocks: seq<Block>)
    requires Hold(sections, blocks) && Separate(keys, changes)
    requires k in changes && changes[k] == entry && entry.changes == []
    modifies entry`changes
    ensures entry.changes == Changes(blocks, k)
    ensures forall l <- changes :: l != k ==> changes[l].changes == old(changes[l].changes)
  {
    PopulateChanges(k, sections, entry, blocks);
    assert [] + Changes(blocks, k) == Changes(blocks, k);
  }

  method PopulateAll(keys: seq<string>, sections: seq<Section>, changes: map<string, ProjectEntry>,
                     ghost blocks: seq<Block>)
    requires Hold(sections, blocks) && Separate(keys, changes)
    requires forall k <- changes :: changes[k].changes == []
    modifies changes.Values`changes
    ensures forall k <- changes :: changes[k].changes == Changes(blocks, k)
  {
    for i := 0 to |keys|
      invariant Hold(sections, blocks)
      invariant forall k <- changes :: k in keys[..i] ==> changes[k].changes == Changes(blocks, k)
      invariant forall k <- changes :: k !in keys[..i] ==> changes[k].changes == []
    {
      var k := keys[i];
      assert k in keys && k !in keys[..i];
      assert forall l :: l in keys[..i + 1] <==> l in keys[..i] || l == k;
      PopulateKey(k, sections, changes[k], keys, changes, blocks);
    }
    assert keys[..|keys|] == keys;
  }
}
