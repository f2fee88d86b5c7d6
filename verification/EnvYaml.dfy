/** The YAML text of an environment, read back line by line: a block of entries behind dashes, each
    a plain scalar on one line (YAML 1.2.2, section 7.3.3). Anything else behind a dash is no
    string to this reader, as a YAML reader would not read it as the text that stands there. */
module EnvYaml {
  import opened Wrappers
  import opened Sequences
  import opened PyText
  import opened Json
  import opened EnvExport
  import opened EnvJson

  // ---------- plain scalars ----------

  predicate IsWhite(c: char) {
    c == ' ' || c == '\t'
  }

  /** Printable characters other than line breaks, blanks and the byte order mark. */
  predicate IsVisible(c: char) {
    || '!' <= c <= '~' || c == '\U{85}' || '\U{A0}' <= c <= '\U{D7FF}'
    || '\U{E000}' <= c <= '\U{FEFE}' || '\U{FF00}' <= c <= '\U{FFFD}' || '\U{10000}' <= c
  }

  /** Characters that mean something else at the head of a scalar. */
  const INDICATORS := "-?:,[]{}#&*!|>'\"%@`"

  predicate VisibleAt(x: string, i: nat) {
    i < |x| && IsVisible(x[i])
  }

  predicate PlainStart(x: string) {
    VisibleAt(x, 0) && (x[0] !in INDICATORS || (x[0] in "?:-" && VisibleAt(x, 1)))
  }

  /** A colon needs something visible behind it, a number sign something visible in front. */
  predicate PlainAt(x: string, i: nat)
    requires i < |x|
  {
    || IsWhite(x[i])
    || (IsVisible(x[i]) && (x[i] == ':' ==> VisibleAt(x, i + 1)) && (x[i] == '#' ==> i > 0 && IsVisible(x[i - 1])))
  }

  predicate Plain(x: string) {
    && PlainStart(x)
    && !IsWhite(x[|x| - 1])
    && forall i :: 0 <= i < |x| ==> PlainAt(x, i)
  }

  predicate AllPlain(xs: seq<string>) {
    forall x <- xs :: Plain(x)
  }

  lemma PlainIsOneLine(x: string)
    requires Plain(x)
    ensures '\n' !in x
  {
    forall i | 0 <= i < |x|
      ensures x[i] != '\n'
    {
      assert PlainAt(x, i);
    }
  }

  lemma PipIsNotPlain()
    ensures !Plain("pip:")
  {
    var x := "pip:";
    assert x[3] == ':' && !VisibleAt(x, 4) && !IsWhite(':');
    assert !PlainAt(x, 3);
  }

  // ---------- reading the YAML text ----------

  /** The scalar on a line behind a dash. */
  function ItemOn(dash: string, line: string): (r: Option<string>)
    ensures r.Some? ==> Plain(r.value)
  {
    if dash <= line && |line| > |dash| && line[|line| - 1] == '\n' && Plain(line[|dash|..|line| - 1])
    then Some(line[|dash|..|line| - 1]) else None
  }

  /** The lines at the head that are items behind this dash, and the lines below. */
  function ReadListed(dash: string, lines: seq<string>): (r: (seq<string>, seq<string>))
    ensures AllPlain(r.0) && |r.1| <= |lines|
  {
    if lines == [] || ItemOn(dash, lines[0]).None? then ([], lines)
    else
      var (xs, rest) := ReadListed(dash, lines[1..]);
      ([ItemOn(dash, lines[0]).value] + xs, rest)
  }

  /** A block of entries: strings, and lists below a line that names `pip`. */
  function ReadEntries(lines: seq<string>): (seq<Json>, seq<string>)
    decreases |lines|
  {
    if lines == [] then ([], lines)
    else if lines[0] == PIP_LINE then
      var (ps, below) := ReadListed(NESTED_DASH, lines[1..]);
      var (es, rest) := ReadEntries(below);
      ([PipEntry(ps)] + es, rest)
    else if ItemOn(DASH, lines[0]).None? then ([], lines)
    else
      var (es, rest) := ReadEntries(lines[1..]);
      ([Str(ItemOn(DASH, lines[0]).value)] + es, rest)
  }

  /** Entries made of plain scalars. */
  ghost predicate PlainEntry(e: Json) {
    match e
    case Str(text) => Plain(text)
    case Arr(_) => true
    case Obj(members) => exists ps :: e == PipEntry(ps) && AllPlain(ps)
  }

  lemma {:induction false} EntriesArePlain(lines: seq<string>)
    ensures forall e <- ReadEntries(lines).0 :: PlainEntry(e)
    decreases |lines|
  {
    if lines != [] {
      if lines[0] == PIP_LINE {
        var (ps, below) := ReadListed(NESTED_DASH, lines[1..]);
        assert PipEntry(ps) == PipEntry(ps) && AllPlain(ps);
        EntriesArePlain(below);
      } else if ItemOn(DASH, lines[0]).Some? {
        EntriesArePlain(lines[1..]);
      }
    }
  }

  // ---------- one line per string ----------

  function ItemLine(dash: string, x: string): string {
    dash + x + "\n"
  }

  lemma ItemLineRead(dash: string, x: string, rest: string)
    requires '\n' !in dash && Plain(x)
    ensures Lines(ItemLine(dash, x) + rest) == [ItemLine(dash, x)] + Lines(rest)
    ensures ItemOn(dash, ItemLine(dash, x)) == Some(x)
  {
    PlainIsOneLine(x);
    LinesCons(dash + x, rest);
    var line := ItemLine(dash, x);
    assert line[|dash|..|line| - 1] == x;
  }

  lemma ListedCons(xs: seq<string>, dash: string, rest: string)
    requires xs != []
    ensures Listed(xs, dash) + rest == ItemLine(dash, xs[0]) + (Listed(xs[1..], dash) + rest)
  {
  }

  lemma ReadListedCons(dash: string, x: string, lines: seq<string>)
    requires ItemOn(dash, ItemLine(dash, x)) == Some(x)
    ensures ReadListed(dash, [ItemLine(dash, x)] + lines)
         == ([x] + ReadListed(dash, lines).0, ReadListed(dash, lines).1)
  {
  }

  lemma FirstIsPlain(xs: seq<string>)
    requires xs != [] && AllPlain(xs)
    ensures Plain(xs[0]) && AllPlain(xs[1..])
  {
  }

  lemma {:induction false} ListedIsRead(xs: seq<string>, dash: string, rest: string)
    requires AllPlain(xs) && '\n' !in dash
    requires Lines(rest) == [] || ItemOn(dash, Lines(rest)[0]).None?
    ensures ReadListed(dash, Lines(Listed(xs, dash) + rest)) == (xs, Lines(rest))
  {
    if xs == [] {
      assert Listed(xs, dash) + rest == rest;
    } else {
      var more := Listed(xs[1..], dash) + rest;
      FirstIsPlain(xs);
      ListedCons(xs, dash, rest);
      ItemLineRead(dash, xs[0], more);
      ListedIsRead(xs[1..], dash, rest);
      ReadListedCons(dash, xs[0], Lines(more));
      assert [xs[0]] + xs[1..] == xs;
    }
  }

  lemma PipLineIsNoItem()
    ensures ItemOn(DASH, PIP_LINE) == None
  {
    PipIsNotPlain();
    assert PIP_LINE[4..8] == "pip:";
  }

  // ---------- the block of dependencies ----------

  /** Nothing below belongs to the block. */
  predicate EndsBlock(rest: string) {
    var lines := Lines(rest);
    lines == [] || (lines[0] != PIP_LINE && ItemOn(DASH, lines[0]).None? && ItemOn(NESTED_DASH, lines[0]).None?)
  }

  lemma PipBlockIsRead(ps: seq<string>, rest: string)
    requires AllPlain(ps) && EndsBlock(rest)
    ensures ReadEntries(Lines(PIP_LINE + Listed(ps, NESTED_DASH) + rest)) == ([PipEntry(ps)], Lines(rest))
  {
    var below := Listed(ps, NESTED_DASH) + rest;
    Regroup(PIP_LINE, Listed(ps, NESTED_DASH), rest);
    PipLineFirst(below);
    ListedIsRead(ps, NESTED_DASH, rest);
    PipEntryCons(ps, Lines(below), Lines(rest));
  }

  lemma PipLineFirst(below: string)
    ensures Lines(PIP_LINE + below) == [PIP_LINE] + Lines(below)
  {
    assert "  - pip:" + "\n" == PIP_LINE;
    LinesCons("  - pip:", below);
  }

  lemma PipEntryCons(ps: seq<string>, lines: seq<string>, below: seq<string>)
    requires ReadListed(NESTED_DASH, lines) == (ps, below) && ReadEntries(below) == ([], below)
    ensures ReadEntries([PIP_LINE] + lines) == ([PipEntry(ps)], below)
  {
    assert ([PIP_LINE] + lines)[1..] == lines;
    assert [PipEntry(ps)] + [] == [PipEntry(ps)];
  }

  lemma BodyCons(ds: seq<string>, ps: seq<string>, rest: string)
    requires ds != []
    ensures YamlBody(ds, ps) + rest == ItemLine(DASH, ds[0]) + (YamlBody(ds[1..], ps) + rest)
  {
  }

  lemma EntriesCons(x: string, lines: seq<string>)
    requires Plain(x)
    ensures var (es, rest) := ReadEntries(lines);
            ReadEntries([ItemLine(DASH, x)] + lines) == ([Str(x)] + es, rest)
  {
    ItemLineRead(DASH, x, "");
    PipLineIsNoItem();
    assert ([ItemLine(DASH, x)] + lines)[1..] == lines;
  }

  lemma ExpectedCons(ds: seq<string>, ps: seq<string>)
    requires ds != []
    ensures Expected(ds, ps) == [Str(ds[0])] + Expected(ds[1..], ps)
  {
  }

  /** A block of plain scalars is read as what it should say. */
  lemma {:induction false} BlockIsRead(ds: seq<string>, ps: seq<string>, rest: string)
    requires AllPlain(ds) && AllPlain(ps) && EndsBlock(rest)
    ensures ReadEntries(Lines(YamlBody(ds, ps) + rest)) == (Expected(ds, ps), Lines(rest))
    decreases |ds|
  {
    if ds != [] {
      assert ds[0] in ds && forall d <- ds[1..] :: d in ds;
      BodyCons(ds, ps, rest);
      ItemLineRead(DASH, ds[0], YamlBody(ds[1..], ps) + rest);
      EntriesCons(ds[0], Lines(YamlBody(ds[1..], ps) + rest));
      BlockIsRead(ds[1..], ps, rest);
      ExpectedCons(ds, ps);
    } else if ps != [] {
      assert YamlBody(ds, ps) == PIP_LINE + Listed(ps, NESTED_DASH);
      PipBlockIsRead(ps, rest);
      assert Expected(ds, ps) == [PipEntry(ps)];
    } else {
      assert YamlBody(ds, ps) + rest == rest;
    }
  }

  lemma {:induction false} StringsAre(xs: seq<string>)
    ensures |Strings(xs)| == |xs| && forall i :: 0 <= i < |xs| ==> Strings(xs)[i] == Str(xs[i])
  {
    if xs != [] {
      StringsAre(xs[1..]);
    }
  }

  lemma PlainPipEntry(ps: seq<string>)
    requires PlainEntry(PipEntry(ps))
    ensures AllPlain(ps)
  {
    var qs :| PipEntry(ps) == PipEntry(qs) && AllPlain(qs);
    assert Strings(ps) == Strings(qs);
    StringsAre(ps);
    StringsAre(qs);
    forall i | 0 <= i < |ps|
      ensures Plain(ps[i])
    {
      assert Strings(ps)[i] == Str(ps[i]) && Strings(qs)[i] == Str(qs[i]);
      assert qs[i] in qs;
    }
  }

  lemma ExpectedIsPlain(ds: seq<string>, ps: seq<string>)
    requires forall e <- Expected(ds, ps) :: PlainEntry(e)
    ensures AllPlain(ds) && AllPlain(ps)
  {
    StringsAre(ds);
    forall i | 0 <= i < |ds|
      ensures Plain(ds[i])
    {
      assert Expected(ds, ps)[i] == Str(ds[i]);
      assert PlainEntry(Expected(ds, ps)[i]);
    }
    if ps != [] {
      assert Expected(ds, ps)[|ds|] == PipEntry(ps);
      PlainPipEntry(ps);
    }
  }

  /** The dependency block is read as what it should say if and only if every string in it is a
      plain scalar. */
  lemma YamlFaithful(ds: seq<string>, ps: seq<string>)
    ensures ReadEntries(Lines(YamlBody(ds, ps))) == (Expected(ds, ps), []) <==> AllPlain(ds) && AllPlain(ps)
  {
    var body := YamlBody(ds, ps);
    assert body + "" == body;
    assert Lines("") == [];
    if ReadEntries(Lines(body)) == (Expected(ds, ps), []) {
      EntriesArePlain(Lines(body));
      ExpectedIsPlain(ds, ps);
    } else if AllPlain(ds) && AllPlain(ps) {
      BlockIsRead(ds, ps, "");
    }
  }

  // ---------- the whole YAML document ----------

  datatype YamlDocument = YamlDocument(name: string, channels: seq<string>, dependencies: seq<Json>, prefix: string)

  const NAME := "name: "
  const PREFIX := "prefix: "
  const CHANNELS_LINE := "channels:\n"
  const DEPENDENCIES_LINE := "dependencies:\n"

  function ReadPrefix(lines: seq<string>): Option<string> {
    if |lines| == 2 && lines[0] == "\n" then ItemOn(PREFIX, lines[1]) else None
  }

  /** Read the blocks behind the name. */
  function ReadBlocks(lines: seq<string>): Option<(seq<string>, seq<Json>, string)> {
    if lines == [] || lines[0] != CHANNELS_LINE then None
    else
      var (cs, below) := ReadListed(DASH, lines[1..]);
      if below == [] || below[0] != DEPENDENCIES_LINE then None
      else
        var (es, rest) := ReadEntries(below[1..]);
        match ReadPrefix(rest)
        case None => None
        case Some(prefix) => Some((cs, es, prefix))
  }

  function ReadDocument(text: string): Option<YamlDocument> {
    var lines := Lines(text);
    if lines == [] then None
    else
      match (ItemOn(NAME, lines[0]), ReadBlocks(lines[1..]))
      case (Some(name), Some((cs, es, prefix))) => Some(YamlDocument(name, cs, es, prefix))
      case _ => None
  }

  lemma DocumentSplits(name: string, cs: seq<string>, ds: seq<string>, ps: seq<string>, prefix: string)
    ensures YamlText(name, cs, ds, ps, prefix)
         == ItemLine(NAME, name)
            + (CHANNELS_LINE + (Listed(cs, DASH) + (DEPENDENCIES_LINE + (YamlBody(ds, ps)
            + ("\n" + ItemLine(PREFIX, prefix))))))
  {
    var last := PREFIX + prefix + "\n";
    var above := NAME + name + "\n" + CHANNELS_LINE + Listed(cs, DASH) + DEPENDENCIES_LINE + YamlBody(ds, ps);
    Regroup4(above + "\n", PREFIX, prefix, "\n");
    Regroup(PREFIX, prefix, "\n");
    Regroup(above, "\n", last);
    Regroup5(ItemLine(NAME, name), CHANNELS_LINE, Listed(cs, DASH), DEPENDENCIES_LINE, YamlBody(ds, ps));
    Regroup5(ItemLine(NAME, name), CHANNELS_LINE, Listed(cs, DASH), DEPENDENCIES_LINE + YamlBody(ds, ps), "\n" + last);
    Regroup(DEPENDENCIES_LINE, YamlBody(ds, ps), "\n" + last);
  }

  lemma FixedLine(line: string, rest: string)
    requires line != "" && line[|line| - 1] == '\n' && '\n' !in line[..|line| - 1]
    ensures Lines(line + rest) == [line] + Lines(rest)
  {
    LinesCons(line[..|line| - 1], rest);
    assert line[..|line| - 1] + "\n" == line;
  }

  lemma PrefixIsRead(prefix: string)
    requires Plain(prefix)
    ensures ReadPrefix(Lines("\n" + ItemLine(PREFIX, prefix))) == Some(prefix)
    ensures EndsBlock("\n" + ItemLine(PREFIX, prefix))
  {
    FixedLine("\n", ItemLine(PREFIX, prefix));
    ItemLineRead(PREFIX, prefix, "");
    assert ItemLine(PREFIX, prefix) + "" == ItemLine(PREFIX, prefix);
    assert Lines("") == [];
  }

  lemma DependenciesAreRead(ds: seq<string>, ps: seq<string>, prefix: string)
    requires AllPlain(ds) && AllPlain(ps) && Plain(prefix)
    ensures var rest := "\n" + ItemLine(PREFIX, prefix);
            var lines := Lines(DEPENDENCIES_LINE + (YamlBody(ds, ps) + rest));
            && lines != [] && lines[0] == DEPENDENCIES_LINE && ItemOn(DASH, lines[0]).None?
            && ReadEntries(lines[1..]) == (Expected(ds, ps), Lines(rest))
  {
    var rest := "\n" + ItemLine(PREFIX, prefix);
    FixedLine(DEPENDENCIES_LINE, YamlBody(ds, ps) + rest);
    PrefixIsRead(prefix);
    BlockIsRead(ds, ps, rest);
  }

  lemma BlocksAreRead(cs: seq<string>, ds: seq<string>, ps: seq<string>, prefix: string)
    requires AllPlain(cs) && Plain(prefix)
    requires AllPlain(ds) && AllPlain(ps)
    ensures var rest := "\n" + ItemLine(PREFIX, prefix);
            var below := DEPENDENCIES_LINE + (YamlBody(ds, ps) + rest);
            ReadBlocks(Lines(CHANNELS_LINE + (Listed(cs, DASH) + below))) == Some((cs, Expected(ds, ps), prefix))
  {
    var rest := "\n" + ItemLine(PREFIX, prefix);
    var below := DEPENDENCIES_LINE + (YamlBody(ds, ps) + rest);
    FixedLine(CHANNELS_LINE, Listed(cs, DASH) + below);
    DependenciesAreRead(ds, ps, prefix);
    ListedIsRead(cs, DASH, below);
    PrefixIsRead(prefix);
  }

  lemma DocumentIsRead(name: string, cs: seq<string>, ds: seq<string>, ps: seq<string>, prefix: string)
    requires Plain(name) && AllPlain(cs) && AllPlain(ds) && AllPlain(ps) && Plain(prefix)
    ensures ReadDocument(YamlText(name, cs, ds, ps, prefix))
         == Some(YamlDocument(name, cs, Expected(ds, ps), prefix))
  {
    DocumentSplits(name, cs, ds, ps, prefix);
    BlocksAreRead(cs, ds, ps, prefix);
    NameIsRead(name, CHANNELS_LINE + (Listed(cs, DASH) + (DEPENDENCIES_LINE
                     + (YamlBody(ds, ps) + ("\n" + ItemLine(PREFIX, prefix))))));
  }

  lemma NameIsRead(name: string, blocks: string)
    requires Plain(name)
    ensures ReadDocument(ItemLine(NAME, name) + blocks)
         == match ReadBlocks(Lines(blocks))
            case None => None
            case Some((cs, es, prefix)) => Some(YamlDocument(name, cs, es, prefix))
  {
    ItemLineRead(NAME, name, blocks);
    assert ([ItemLine(NAME, name)] + Lines(blocks))[1..] == Lines(blocks);
  }

  lemma BlocksArePlain(lines: seq<string>)
    requires ReadBlocks(lines).Some?
    ensures var (cs, es, prefix) := ReadBlocks(lines).value;
            AllPlain(cs) && (forall e <- es :: PlainEntry(e)) && Plain(prefix)
  {
    var (cs, below) := ReadListed(DASH, lines[1..]);
    EntriesArePlain(below[1..]);
  }

  /** The whole document gives back its name, channels, entries and prefix if and only if all that
      is written in it is a plain scalar. */
  lemma DocumentFaithful(name: string, cs: seq<string>, ds: seq<string>, ps: seq<string>, prefix: string)
    ensures ReadDocument(YamlText(name, cs, ds, ps, prefix))
            == Some(YamlDocument(name, cs, Expected(ds, ps), prefix))
            <==> Plain(name) && AllPlain(cs) && AllPlain(ds) && AllPlain(ps) && Plain(prefix)
  {
    var text := YamlText(name, cs, ds, ps, prefix);
    if Plain(name) && AllPlain(cs) && AllPlain(ds) && AllPlain(ps) && Plain(prefix) {
      DocumentIsRead(name, cs, ds, ps, prefix);
    } else if ReadDocument(text) == Some(YamlDocument(name, cs, Expected(ds, ps), prefix)) {
      BlocksArePlain(Lines(text)[1..]);
      ExpectedIsPlain(ds, ps);
    }
  }
}
