/** What stands where in the texts that the two release scripts print. */
module PrintedText {
  import opened Wrappers
  import opened Sequences
  import opened PyText
  import opened ChangelogModel
  import opened UpdateChangelog
  import opened ReleaserSpec
  import opened ChangelogRoundTrip
  import opened ReleaseTheorems
  import opened ProjectRoundTrip

  // ---------- which packages ----------

  /** The file lies in this folder of the repository, at any depth. */
  predicate LiesIn(file: string, folder: string) {
    |Split(file, '/')| > 1 && Split(file, '/')[0] == folder
  }

  lemma FolderIsPrefix(file: string, folder: string)
    requires '/' !in folder
    ensures folder + "/" <= file <==> LiesIn(file, folder)
  {
    CutSplits(file, '/');
    if folder + "/" <= file {
      var rest := file[|folder| + 1..];
      assert file == folder + ['/'] + rest;
      CutAt(folder, '/', rest);
    }
    assert LiesIn(file, folder) ==> Cut(file, '/').Some? && file == folder + ['/'] + Cut(file, '/').value.1;
  }

  /** A request concerns a package if some file of it lies in the package's folder, or none lies in the
      folder of any of the three. */
  lemma ConcernsAre(pr: PullRequest, pkg: string)
    requires pkg in ["libmamba", "libmambapy", "micromamba"]
    ensures Concerns(pr, pkg) <==>
            || (exists f <- pr.files :: LiesIn(f, pkg))
            || forall f <- pr.files :: !LiesIn(f, "libmamba") && !LiesIn(f, "libmambapy") && !LiesIn(f, "micromamba")
  {
    forall p <- ["libmamba", "libmambapy", "micromamba"]
      ensures TouchesDirectory(pr.files, p) <==> exists f <- pr.files :: LiesIn(f, p)
    {
      forall f: string
        ensures p + "/" <= f <==> LiesIn(f, p)
      {
        FolderIsPrefix(f, p);
      }
    }
    assert PACKAGES == ["libmamba", "libmambapy", "micromamba"];
    assert Concerns(pr, pkg)
           <==> || TouchesDirectory(pr.files, pkg)
                || (!TouchesDirectory(pr.files, PACKAGES[0]) && !TouchesDirectory(pr.files, PACKAGES[1])
                    && !TouchesDirectory(pr.files, PACKAGES[2]));
  }

  // ---------- an item ----------

  /** Title, login and address can be read off an item, when the signs between them are not in them. */
  lemma DescriptionParts(pr: PullRequest)
    requires '@' !in pr.title && '<' !in pr.title && '<' !in pr.login
    ensures Cut(Description(pr), '@') == Some((pr.title + " by ", pr.login + " in <" + pr.url + ">"))
    ensures Cut(pr.login + " in <" + pr.url + ">", '<') == Some((pr.login + " in ", pr.url + ">"))
  {
    var tail := pr.login + " in <" + pr.url + ">";
    DescriptionSplits(pr.title, pr.login, pr.url);
    CutAt(pr.title + " by ", '@', tail);
    assert tail == (pr.login + " in ") + "<" + (pr.url + ">");
    CutAt(pr.login + " in ", '<', pr.url + ">");
  }

  lemma DescriptionSplits(title: string, login: string, url: string)
    ensures title + " by @" + login + " in <" + url + ">" == (title + " by ") + "@" + (login + " in <" + url + ">")
  {
  }

  // ---------- the head of a release ----------

  /** The first four lines of a changelog with a new release: the date, an empty line, the release line
      with the version, and the empty line that opens a category or closes the release. */
  lemma FirstLines(date: string, version: string, cs: seq<Category>, older: string)
    requires '\n' !in date && '\n' !in version
    ensures var lines := Lines(ReleaseText(date, version, cs) + older);
            && |lines| >= 4
            && lines[0] == "## " + date + "\n" && lines[1] == "\n"
            && lines[2] == "Release: " + version + " (libmamba, mamba, micromamba, libmambapy)\n"
            && lines[3] == "\n"
  {
    var line := ReleaseLine(version);
    var below := CategoriesText(cs) + ("\n" + older);
    ReleaseSplits(date, version, cs, older);
    LinesCons(H2 + date, "\n" + (line + "\n" + below));
    EmptyLine(line + "\n" + below);
    ReleaseLineIsOneLine(version);
    LinesCons(line, below);
    BelowIsEmptyLine(cs, older);
    ReleaseLineSpelled(version);
  }

  lemma EmptyLine(rest: string)
    ensures Lines("\n" + rest) == ["\n"] + Lines(rest)
  {
    LinesCons("", rest);
    assert "" + "\n" + rest == "\n" + rest;
    assert "" + "\n" == "\n";
  }

  lemma ReleaseLineSpelled(version: string)
    ensures ReleaseLine(version) + "\n" == "Release: " + version + " (libmamba, mamba, micromamba, libmambapy)\n"
  {
    ParenthesisSpelled();
    Regroup4("Release: " + version, " (", PROJECTS, ")");
    assert ReleaseLine(version) + "\n" == "Release: " + version + (" (" + PROJECTS + ")" + "\n");
  }

  lemma ParenthesisSpelled()
    ensures " (" + PROJECTS + ")" + "\n" == " (libmamba, mamba, micromamba, libmambapy)\n"
  {
  }

  lemma {:induction false} BelowIsEmptyLine(cs: seq<Category>, older: string)
    ensures var lines := Lines(CategoriesText(cs) + ("\n" + older)); lines != [] && lines[0] == "\n"
    decreases |cs|
  {
    if cs == [] {
      assert CategoriesText(cs) + ("\n" + older) == "\n" + older;
      EmptyLine(older);
    } else {
      Regroup(MaybeText(cs[0]), CategoriesText(cs[1..]), "\n" + older);
      var rest := CategoriesText(cs[1..]) + ("\n" + older);
      if cs[0].items == [] {
        assert MaybeText(cs[0]) + rest == rest;
        BelowIsEmptyLine(cs[1..], older);
      } else {
        var tail := (cs[0].name + ":\n\n" + ItemsText(cs[0].items)) + rest;
        assert MaybeText(cs[0]) + rest == "\n" + tail;
        EmptyLine(tail);
      }
    }
  }

  // ---------- a project's changelog ----------

  /** The first line names the project, the version and the date, in this order. */
  lemma ProjectHeaderFields(name: string, version: string, date: string, changes: seq<string>)
    requires ' ' !in name && ' ' !in version && '(' !in name && '(' !in version
    requires '\n' !in name && '\n' !in version && '\n' !in date
    ensures var lines := Lines(ProjectText(name, version, date, changes));
            && lines != []
            && |Split(lines[0], ' ')| >= 4
            && Split(lines[0], ' ')[0] == "##" && Split(lines[0], ' ')[1] == name && Split(lines[0], ' ')[2] == version
            && Cut(lines[0], '(').Some? && Cut(lines[0], '(').value.1 == date + ")\n"
  {
    var header := ProjectHeader(name, version, date);
    var below := "\n" + ChangesText(None, changes) + "\n";
    assert ProjectText(name, version, date, changes) == header + "\n" + below by {
      Regroup4(header + "\n", "\n", ChangesText(None, changes), "\n");
      Regroup("\n", ChangesText(None, changes), "\n");
    }
    LinesCons(header, below);
    HeaderWords(name, version, date);
  }

  lemma HeaderWords(name: string, version: string, date: string)
    requires ' ' !in name && ' ' !in version && '(' !in name && '(' !in version
    ensures var line := ProjectHeader(name, version, date) + "\n";
            && |Split(line, ' ')| >= 4
            && Split(line, ' ')[0] == "##" && Split(line, ' ')[1] == name && Split(line, ' ')[2] == version
            && Cut(line, '(').Some? && Cut(line, '(').value.1 == date + ")\n"
  {
    var end := "(" + date + ")" + "\n";
    HeaderSplits(name, version, date);
    var t1 := version + " " + end;
    var t0 := name + " " + t1;
    FieldFirst("##", t0);
    FieldFirst(name, t1);
    FieldFirst(version, end);
    var front := "## " + name + " " + version + " ";
    assert ProjectHeader(name, version, date) + "\n" == front + "(" + (date + ")\n");
    CutAt(front, '(', date + ")\n");
  }

  lemma FieldFirst(a: string, rest: string)
    requires ' ' !in a
    ensures Split(a + " " + rest, ' ') == [a] + Split(rest, ' ')
  {
    CutAt(a, ' ', rest);
  }

  lemma HeaderSplits(name: string, version: string, date: string)
    ensures ProjectHeader(name, version, date) + "\n"
         == "##" + " " + (name + " " + (version + " " + ("(" + date + ")" + "\n")))
  {
  }

  /** A section that is kept is printed as its heading, and, if it has items for the project, an empty line
      and one line for each. */
  lemma SectionIsPrinted(b: Block, name: string)
    requires PrintableBlock(b) && Kept(b, name)
    ensures var items := ItemChanges(b.items, name);
            ChangesText(None, BlockChanges(b, name, true))
            == Strip(b.text) + "\n" + (if items == [] then "" else "\n" + Join("\n", items) + "\n")
  {
    var items := ItemChanges(b.items, name);
    BlockPrinted(b, name, true, None);
    assert "" + KeptText(b, name) == KeptText(b, name);
    if items != [] {
      PlainIsJoined(items);
    }
  }

  lemma {:induction false} PlainIsJoined(changes: seq<string>)
    requires changes != []
    ensures Plain(changes) == Join("\n", changes) + "\n"
  {
    if |changes| == 1 {
      assert Plain(changes) == changes[0] + "\n" + Plain([]);
    } else {
      PlainIsJoined(changes[1..]);
    }
  }
}
