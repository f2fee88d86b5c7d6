/** What `releaser.py` reads out of a changelog, on values. */
module ReleaserSpec {
  import opened Wrappers
  import opened Sequences
  import opened PyText
  import opened ChangelogModel
  import VersionScheme

  // ---------- patterns ----------

  /** `\w` and `\d` on ASCII text. */
  predicate IsWord(c: char) {
    'a' <= c <= 'z' || 'A' <= c <= 'Z' || IsDigit(c) || c == '_'
  }

  predicate IsDotWord(c: char) {
    c == '.' || IsWord(c)
  }

  predicate IsNameChar(c: char) {
    IsWord(c) || c == ',' || IsSpace(c)
  }

  predicate IsE(c: char) {
    c == 'e'
  }

  const RELEASE := "Release"

  /** `\d\.\d\.\d` at the head of a text. */
  predicate ThreeDigits(s: string) {
    |s| >= 5 && IsDigit(s[0]) && s[1] == '.' && IsDigit(s[2]) && s[3] == '.' && IsDigit(s[4])
  }

  /** The text behind `Release*:\s+` at the head of `s`. */
  function MatchKey(s: string): Option<string> {
    if !("Releas" <= s) then None
    else
      var a := DropWhile(IsE, s[6..]);
      if !(":" <= a) then None
      else
        var b := DropWhile(IsSpace, a[1..]);
        if |b| == |a| - 1 then None else Some(b)
  }

  /** The groups of `(\d\.\d\.\d[\.\w]*)\s+\(([\w,\s]+)\)\s*` at the head of `b`. */
  function MatchValue(b: string): Option<(string, string)> {
    if !ThreeDigits(b) then None
    else
      var version := b[..5] + TakeWhile(IsDotWord, b[5..]);
      var d := b[|version|..];
      var e := DropWhile(IsSpace, d);
      if |e| == |d| || !("(" <= e) then None
      else
        var names := TakeWhile(IsNameChar, e[1..]);
        if names == "" || !(")" <= e[1 + |names|..]) then None
        else Some((version, names))
  }

  /** The pattern of a release line, `Release*:\s+(\d\.\d\.\d[\.\w]*)\s+\(([\w,\s]+)\)\s*`,
      tried at the head of `s`. No part of it can match in two ways, because the characters of
      neighbouring parts differ, so each part takes the longest run it can. */
  function MatchReleaseAt(s: string): Option<(string, string)> {
    match MatchKey(s)
    case None => None
    case Some(b) => MatchValue(b)
  }

  /** The leftmost match. */
  function SearchRelease(s: string): Option<(string, string)> {
    if MatchReleaseAt(s).Some? || s == "" then MatchReleaseAt(s) else SearchRelease(s[1..])
  }

  /** The pattern `\[(.*?)\]`, searched in one line: the text between the first opening bracket
      and the first closing bracket behind it, and the text after. */
  function SearchBrackets(line: string): Option<(string, string)> {
    match Cut(line, '[')
    case None => None
    case Some((_, rest)) => Cut(rest, ']')
  }

  function StripAll(fields: seq<string>): (r: seq<string>)
    ensures |r| == |fields|
    ensures forall i :: 0 <= i < |fields| ==> r[i] == Strip(fields[i])
  {
    seq(|fields|, i requires 0 <= i < |fields| => Strip(fields[i]))
  }

  function TagsOf(group: string): seq<string> {
    StripAll(Split(group, ','))
  }

  // ---------- the projects of a release line ----------

  function CommasToSpaces(s: string): string {
    seq(|s|, i requires 0 <= i < |s| => if s[i] == ',' then ' ' else s[i])
  }

  predicate IsNoSpace(c: char) {
    !IsSpace(c)
  }

  /** `s.split()`. */
  function Words(s: string): seq<string>
    decreases |s|
  {
    if s == "" then []
    else if IsSpace(s[0]) then Words(s[1..])
    else [TakeWhile(IsNoSpace, s)] + Words(DropWhile(IsNoSpace, s))
  }

  /** The keys of the `changes` dictionary: each project but `mamba`, where it first occurs. */
  function ProjectKeys(words: seq<string>): seq<string> {
    if words == [] then []
    else
      var keys := ProjectKeys(words[..|words| - 1]);
      var w := words[|words| - 1];
      if w == "mamba" || w in keys then keys else keys + [w]
  }

  lemma {:induction false} ProjectKeysOnce(words: seq<string>)
    ensures NoDuplicates(ProjectKeys(words))
    ensures forall w :: w in ProjectKeys(words) <==> w in words && w != "mamba"
  {
    if words != [] {
      ProjectKeysOnce(words[..|words| - 1]);
      assert words == words[..|words| - 1] + [words[|words| - 1]];
    }
  }

  // ---------- the line-by-line reader ----------

  datatype ReadError =
    | NoHeader            // no line opens a release
    | EndOfFile           // the lookahead reads past the last line
    | ItemBeforeSection   // an item stands before any section
    | DuplicateRelease
    | NoRelease
    | BadVersion(error: VersionScheme.VersionError)

  datatype Reading = Reading(
    inSection: bool,
    version: Option<string>,
    projects: seq<string>,
    sections: seq<Block>)
  {
    predicate Valid() {
      inSection ==> sections != []
    }
  }

  const START := Reading(false, None, [], [])

  /** A line that is neither empty nor an item: it opens a section or prolongs the open one. */
  function AddHeading(r: Reading, line: string): (r': Reading)
    requires r.Valid() && line != ""
    ensures r'.Valid()
  {
    var sections := if r.inSection then r.sections else r.sections + [NewBlock()];
    var n := |sections| - 1;
    r.(inSection := true, sections := sections[n := HeadingBlock(sections[n], line)])
  }

  function NewBlock(): Block {
    Block([], [ALL], "")
  }

  function HeadingBlock(b: Block, line: string): Block
    requires line != ""
  {
    var text := b.text + line;
    match SearchBrackets(line)
    case Some((group, _)) => b.(text := text, appliesTo := TagsOf(group))
    case None => b.(text := if line[0] == ' ' then text + " " + Strip(line) else text)
  }

  function ItemOf(line: string): Entry {
    match SearchBrackets(line)
    case Some((group, tail)) => Entry(TagsOf(group), Strip(tail))
    case None => Entry([ALL], Strip(line))
  }

  function ItemBlock(b: Block, line: string): Block {
    b.(items := b.items + [ItemOf(line)])
  }

  function AddItem(r: Reading, line: string): (r': Result<Reading, ReadError>)
    ensures r'.Ok? ==> r'.value.Valid()
  {
    if r.sections == [] then Err(ItemBeforeSection)
    else
      var n := |r.sections| - 1;
      Ok(r.(inSection := false, sections := r.sections[n := ItemBlock(r.sections[n], line)]))
  }

  /** The effect of a line that is not a release line. */
  function AddLine(r: Reading, line: string): (r': Result<Reading, ReadError>)
    requires r.Valid()
    ensures r'.Ok? ==> r'.value.Valid()
  {
    if Strip(line) == "" then Ok(r.(inSection := false))
    else if line[0] == '-' then AddItem(r, line)
    else Ok(AddHeading(r, line))
  }

  /** The effect of a line that starts with `Release`. */
  function AddRelease(r: Reading, line: string): (r': Result<Reading, ReadError>)
    requires r.Valid()
    ensures r'.Ok? ==> r'.value.Valid()
  {
    match SearchRelease(line)
    case None => Ok(r)
    case Some((version, names)) =>
      if r.version.Some? then Err(DuplicateRelease)
      else Ok(r.(version := Some(version), projects := ProjectKeys(Words(CommasToSpaces(names)))))
  }

  datatype StepResult = Next(reading: Reading) | Stop | Fail(error: ReadError)

  function ToStep(r: Result<Reading, ReadError>): StepResult {
    match r
    case Ok(r') => Next(r')
    case Err(e) => Fail(e)
  }

  /** One line, with the line after it, if any. */
  function Step(line: string, following: Option<string>, r: Reading): (s: StepResult)
    requires r.Valid()
    ensures s.Next? ==> s.reading.Valid()
  {
    if RELEASE <= line then ToStep(AddRelease(r, line))
    else if following.None? then Fail(EndOfFile)
    else if H2 <= following.value then Stop
    else ToStep(AddLine(r, line))
  }

  function Second(lines: seq<string>): Option<string> {
    if |lines| > 1 then Some(lines[1]) else None
  }

  /** Read lines until the next release opens. The line after the current one is looked at
      first, so the last line before the next release is never processed. */
  function Scan(lines: seq<string>, r: Reading): (r': Result<Reading, ReadError>)
    requires r.Valid()
    ensures r'.Ok? ==> r'.value.Valid()
  {
    if lines == [] then Ok(r)
    else
      match Step(lines[0], Second(lines), r)
      case Next(r') => Scan(lines[1..], r')
      case Stop => Ok(r)
      case Fail(e) => Err(e)
  }

  /** The lines after the first one that opens a release. */
  function AfterHeader(lines: seq<string>): Option<seq<string>> {
    if lines == [] then None
    else if H2 <= lines[0] then Some(lines[1..])
    else AfterHeader(lines[1..])
  }

  /** The newest release of a changelog: its version, its projects and its sections. */
  datatype Notes = Notes(version: VersionScheme.Version, projects: seq<string>, sections: seq<Block>)

  function Finish(r: Reading): Result<Notes, ReadError> {
    if r.version.None? then Err(NoRelease)
    else
      match VersionScheme.Parse(r.version.value)
      case Err(e) => Err(BadVersion(e))
      case Ok(v) => Ok(Notes(v, r.projects, r.sections))
  }

  function ReadNotes(changelog: string): Result<Notes, ReadError> {
    match AfterHeader(Lines(changelog))
    case None => Err(NoHeader)
    case Some(lines) =>
      var r :- Scan(lines, START);
      Finish(r)
  }

  // ---------- the changes of one project ----------

  predicate Applies(tags: seq<string>, name: string) {
    ALL in tags || name in tags
  }

  /** A section is kept if it applies itself and has no items, or one that applies. */
  predicate Kept(s: Block, name: string) {
    Applies(s.appliesTo, name) && (s.items == [] || exists i <- s.items :: Applies(i.appliesTo, name))
  }

  function ItemChanges(items: seq<Entry>, name: string): seq<string> {
    if items == [] then []
    else (if Applies(items[0].appliesTo, name) then ["- " + Strip(items[0].text)] else [])
         + ItemChanges(items[1..], name)
  }

  lemma {:induction false} ItemChangesAppend(items: seq<Entry>, e: Entry, name: string)
    ensures ItemChanges(items + [e], name)
         == ItemChanges(items, name) + (if Applies(e.appliesTo, name) then ["- " + Strip(e.text)] else [])
  {
    if items != [] {
      assert (items + [e])[1..] == items[1..] + [e];
      ItemChangesAppend(items[1..], e, name);
    }
  }

  /** The heading of the very first section is not set off by an empty line. */
  function BlockChanges(s: Block, name: string, first: bool): seq<string> {
    if Kept(s, name) then [if first then Strip(s.text) else "\n" + Strip(s.text)] + ItemChanges(s.items, name)
    else []
  }

  function ChangesFrom(sections: seq<Block>, name: string, first: bool): seq<string>
    decreases |sections|
  {
    if sections == [] then []
    else BlockChanges(sections[0], name, first) + ChangesFrom(sections[1..], name, false)
  }

  lemma {:induction false} ChangesFromAppend(sections: seq<Block>, b: Block, name: string, first: bool)
    ensures ChangesFrom(sections + [b], name, first)
         == ChangesFrom(sections, name, first) + BlockChanges(b, name, first && sections == [])
    decreases |sections|
  {
    if sections != [] {
      assert (sections + [b])[1..] == sections[1..] + [b];
      ChangesFromAppend(sections[1..], b, name, false);
    }
  }

  function Changes(sections: seq<Block>, name: string): seq<string> {
    ChangesFrom(sections, name, true)
  }

  // ---------- the text of a project's release ----------

  /** One change as it is printed; an item that follows a heading is set off by an empty line. */
  function ChangeText(previous: Option<string>, c: string): string {
    if "-" <= c && previous.Some? && !("- " <= previous.value) then "\n" + c + "\n" else c + "\n"
  }

  function ChangesText(previous: Option<string>, changes: seq<string>): string
    decreases |changes|
  {
    if changes == [] then ""
    else ChangeText(previous, changes[0]) + ChangesText(Some(changes[0]), changes[1..])
  }

  lemma {:induction false} ChangesTextAppend(previous: Option<string>, cs: seq<string>, c: string)
    ensures ChangesText(previous, cs + [c])
         == ChangesText(previous, cs) + ChangeText(if cs == [] then previous else Some(cs[|cs| - 1]), c)
    decreases |cs|
  {
    if cs != [] {
      assert (cs + [c])[1..] == cs[1..] + [c];
      ChangesTextAppend(Some(cs[0]), cs[1..], c);
    }
  }

  function ProjectHeader(name: string, version: string, date: string): string {
    H2 + name + " " + version + " (" + date + ")"
  }

  function ProjectText(name: string, version: string, date: string, changes: seq<string>): string {
    ProjectHeader(name, version, date) + "\n" + "\n" + ChangesText(None, changes) + "\n"
  }
}
