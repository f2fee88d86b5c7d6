/** Shell completion (`micromamba/src/completer.cpp`): the callbacks of a tree of commands are
    replaced, and the first one that runs offers completions. */
module Completer {
  import opened Wrappers

  // ---------- replacing the callbacks ----------

  /** A command with its options and subcommands. The callback is the command it completes for. */
  class App {
    const name: string
    const longNames: seq<string>
    const shortNames: seq<string>
    const subcommands: seq<App>
    ghost const height: nat
    var callback: Option<App>

    constructor (name: string, longNames: seq<string>, shortNames: seq<string>, subcommands: seq<App>,
                 ghost height: nat)
      ensures this.name == name && this.longNames == longNames && this.shortNames == shortNames
      ensures this.subcommands == subcommands && this.height == height && callback == None
    {
      this.name, this.longNames, this.shortNames := name, longNames, shortNames;
      this.subcommands, this.height, callback := subcommands, height, None;
    }
  }

  /** Subcommands stand lower than their command, so that every walk ends. */
  ghost predicate IsTree(app: App)
    decreases app.height
  {
    forall s <- app.subcommands :: s.height < app.height && IsTree(s)
  }

  /** A command and all below it, each before its own subcommands. */
  ghost function Preorder(app: App): seq<App>
    requires IsTree(app)
    decreases app.height, 1
  {
    [app] + Below(app, app.subcommands)
  }

  ghost function Below(app: App, subs: seq<App>): seq<App>
    requires forall s <- subs :: s.height < app.height && IsTree(s)
    decreases app.height, 0, |subs|
  {
    if subs == [] then []
    else
      assert forall s <- subs[..|subs| - 1] :: s in subs;
      Below(app, subs[..|subs| - 1]) + Preorder(subs[|subs| - 1])
  }

  ghost function Members(app: App): set<App>
    requires IsTree(app)
  {
    set a | a in Preorder(app)
  }

  lemma {:induction false} BelowHolds(app: App, subs: seq<App>, s: App)
    requires (forall s <- subs :: s.height < app.height && IsTree(s)) && s in subs
    ensures forall a <- Preorder(s) :: a in Below(app, subs)
    decreases |subs|
  {
    var init, last := subs[..|subs| - 1], subs[|subs| - 1];
    assert subs == init + [last] && forall t <- init :: t in subs;
    if s != last {
      BelowHolds(app, init, s);
    }
  }

  /** The walk misses no command of the tree, and meets nothing else. */
  lemma {:induction false} PreorderIsTree(top: App, a: App)
    requires IsTree(top)
    ensures top in Preorder(top)
    ensures a in Preorder(top) ==> forall s <- a.subcommands :: s in Preorder(top)
    ensures a in Preorder(top) ==> a == top || exists p <- Preorder(top) :: a in p.subcommands
    decreases top.height, 1
  {
    assert Preorder(top)[0] == top;
    forall s <- top.subcommands
      ensures s in Preorder(top)
    {
      BelowHolds(top, top.subcommands, s);
      assert Preorder(s)[0] == s;
    }
    if a in Below(top, top.subcommands) {
      BelowIsTrees(top, top.subcommands, a);
    }
  }

  lemma {:induction false} BelowIsTrees(top: App, subs: seq<App>, a: App)
    requires (forall s <- subs :: s.height < top.height && IsTree(s)) && a in Below(top, subs)
    ensures forall s <- a.subcommands :: s in Below(top, subs)
    ensures a in subs || exists p <- Below(top, subs) :: a in p.subcommands
    decreases top.height, 0, |subs|
  {
    var init, last := subs[..|subs| - 1], subs[|subs| - 1];
    assert subs == init + [last] && forall s <- init :: s in subs;
    if a in Below(top, init) {
      BelowIsTrees(top, init, a);
    } else {
      PreorderIsTree(last, a);
      if a != last {
        var p :| p in Preorder(last) && a in p.subcommands;
        assert p in Below(top, subs);
      }
    }
  }

  /** The vector that the recursion shares; nothing is ever taken off it again. */
  class Apps {
    var items: seq<App>

    constructor (app: App)
      ensures items == [app]
    {
      items := [app];
    }
  }

  /** Replace the callback of the last command of the vector and of all below it. The last command
      is looked up once, before the vector grows. */
  method OverwriteCallbacks(apps: Apps, ghost top: App)
    requires apps.items != [] && apps.items[|apps.items| - 1] == top && IsTree(top)
    modifies apps, Members(top)`callback
    ensures apps.items == old(apps.items) + Preorder(top)[1..]
    ensures forall a <- Preorder(top) :: a.callback == Some(a)
    decreases top.height, 0
  {
    var app := apps.items[|apps.items| - 1];
    app.callback := Some(app);
    ghost var start, below := apps.items, [];
    for i := 0 to |app.subcommands|
      invariant below == Below(app, app.subcommands[..i])
      invariant apps.items == start + below
      invariant forall a <- [app] + below :: a.callback == Some(a)
    {
      var sub := app.subcommands[i];
      assert app.subcommands[..i + 1][..i] == app.subcommands[..i];
      BelowHolds(app, app.subcommands, sub);
      Descend(apps, sub, [app] + below);
      below := below + Preorder(sub);
    }
    assert app.subcommands[..|app.subcommands|] == app.subcommands;
    assert Preorder(top) == [app] + below;
  }

  /** One turn of the loop: push a subcommand and walk it. What was done before stays done. */
  method Descend(apps: Apps, sub: App, ghost done: seq<App>)
    requires IsTree(sub) && forall a <- done :: a.callback == Some(a)
    modifies apps, Members(sub)`callback
    ensures apps.items == old(apps.items) + Preorder(sub)
    ensures forall a <- done + Preorder(sub) :: a.callback == Some(a)
    decreases sub.height, 1
  {
    apps.items := apps.items + [sub];
    OverwriteCallbacks(apps, sub);
    forall a <- done
      ensures a.callback == Some(a)
    {
      assert a in Preorder(sub) || a !in Members(sub);
    }
  }

  // ---------- offering completions ----------

  function LStripDashes(s: string): (r: string)
    ensures |r| <= |s| && s[|s| - |r|..] == r
    ensures forall i :: 0 <= i < |s| - |r| ==> s[i] == '-'
    ensures r == "" || r[0] != '-'
  {
    if s != "" && s[0] == '-' then LStripDashes(s[1..]) else s
  }

  /** The names that start with a text, each behind a prefix. */
  function Offers(names: seq<string>, start: string, prefix: string): seq<string> {
    if names == [] then []
    else (if start <= names[0] then [prefix + names[0]] else []) + Offers(names[1..], start, prefix)
  }

  lemma {:induction false} OffersAppend(names: seq<string>, n: string, start: string, prefix: string)
    ensures Offers(names + [n], start, prefix)
         == Offers(names, start, prefix) + (if start <= n then [prefix + n] else [])
  {
    if names != [] {
      assert (names + [n])[1..] == names[1..] + [n];
      OffersAppend(names[1..], n, start, prefix);
    }
  }

  method Collect(names: seq<string>, start: string, prefix: string) returns (offers: seq<string>)
    ensures offers == Offers(names, start, prefix)
  {
    offers := [];
    for i := 0 to |names|
      invariant offers == Offers(names[..i], start, prefix)
    {
      assert names[..i + 1] == names[..i] + [names[i]];
      OffersAppend(names[..i], names[i], start, prefix);
      if start <= names[i] {
        offers := offers + [prefix + names[i]];
      }
    }
    assert names[..|names|] == names;
  }

  function SubcommandNames(apps: seq<App>): seq<string> {
    seq(|apps|, i requires 0 <= i < |apps| => apps[i].name)
  }

  /** What is printed for the typed words, given the environments there are; nothing for a lone dash. */
  function Completions(app: App, environments: seq<string>, words: seq<string>): Option<seq<string>>
    requires words != []
  {
    var last := words[|words| - 1];
    if words[0] == "-n" && |words| == 2 then Some(Offers(environments, last, ""))
    else if "-" <= last then
      var start := LStripDashes(last);
      if "--" <= last then Some(Offers(app.longNames, start, "--"))
      else if start == "" then None
      else Some(Offers(app.shortNames, start, "-"))
    else Some(Offers(SubcommandNames(app.subcommands), last, ""))
  }

  /** What stands in the printed table: environments behind `-n`, subcommands for a word without a dash,
      long names behind two dashes, short names behind one, and no table for a lone dash. */
  ghost predicate Answers(app: App, environments: seq<string>, words: seq<string>, printed: seq<seq<string>>)
    requires words != []
  {
    var last := words[|words| - 1];
    var start := LStripDashes(last);
    if words[0] == "-n" && |words| == 2 then
      |printed| == 1 && forall n :: n in printed[0] <==> n in environments && last <= n
    else if last == "" || last[0] != '-' then
      |printed| == 1 && forall n :: n in printed[0] <==> last <= n && exists s <- app.subcommands :: s.name == n
    else if last == "-" then
      printed == []
    else if last[1] == '-' then
      |printed| == 1 && forall o :: o in printed[0] <==> exists n <- app.longNames :: start <= n && o == "--" + n
    else
      |printed| == 1 && forall o :: o in printed[0] <==> exists n <- app.shortNames :: start <= n && o == "-" + n
  }

  lemma {:induction false} OffersAre(names: seq<string>, start: string, prefix: string, o: string)
    ensures o in Offers(names, start, prefix) <==> exists n <- names :: start <= n && o == prefix + n
  {
    if names != [] {
      OffersAre(names[1..], start, prefix, o);
      assert names == [names[0]] + names[1..];
    }
  }

  /** The names are offered in the order in which they are declared, each as often as it is. */
  lemma {:induction false} OffersConcat(a: seq<string>, b: seq<string>, start: string, prefix: string)
    ensures Offers(a + b, start, prefix) == Offers(a, start, prefix) + Offers(b, start, prefix)
    ensures |a| == 1 ==> Offers(a, start, prefix) == if start <= a[0] then [prefix + a[0]] else []
  {
    if a == [] {
      assert a + b == b;
    } else {
      assert (a + b)[1..] == a[1..] + b;
      OffersConcat(a[1..], b, start, prefix);
    }
  }

  lemma OffersPlain(names: seq<string>, start: string)
    ensures forall n :: n in Offers(names, start, "") <==> n in names && start <= n
  {
    forall n
      ensures n in Offers(names, start, "") <==> n in names && start <= n
    {
      OffersAre(names, start, "", n);
      assert forall m: string :: "" + m == m;
    }
  }

  lemma OffersBehind(names: seq<string>, start: string, prefix: string)
    ensures forall o :: o in Offers(names, start, prefix) <==> exists n <- names :: start <= n && o == prefix + n
  {
    forall o
      ensures o in Offers(names, start, prefix) <==> exists n <- names :: start <= n && o == prefix + n
    {
      OffersAre(names, start, prefix, o);
    }
  }

  lemma NamesOfSubcommands(apps: seq<App>, n: string)
    ensures n in SubcommandNames(apps) <==> exists s <- apps :: s.name == n
  {
    var names := SubcommandNames(apps);
    if n in names {
      var i :| 0 <= i < |names| && names[i] == n;
      assert apps[i] in apps;
    }
    if s :| s in apps && s.name == n {
      var i :| 0 <= i < |apps| && apps[i] == s;
      assert names[i] == n;
    }
  }

  lemma DashesFirst(last: string)
    ensures "-" <= last <==> last != "" && last[0] == '-'
    ensures "--" <= last <==> |last| > 1 && last[0] == last[1] == '-'
    ensures "-" <= last && !("--" <= last) ==> (LStripDashes(last) == "" <==> last == "-")
  {
    if "-" <= last && !("--" <= last) {
      OneDash(last);
    }
  }

  lemma OptionsAnswer(app: App, environments: seq<string>, words: seq<string>)
    requires words != [] && !(words[0] == "-n" && |words| == 2) && "-" <= words[|words| - 1]
    ensures Answers(app, environments, words,
                    match Completions(app, environments, words) case None => [] case Some(table) => [table])
  {
    var last := words[|words| - 1];
    var start := LStripDashes(last);
    DashesFirst(last);
    if |last| > 1 && last[1] == '-' {
      OffersBehind(app.longNames, start, "--");
    } else {
      OffersBehind(app.shortNames, start, "-");
    }
  }

  lemma NamesAnswer(app: App, environments: seq<string>, words: seq<string>)
    requires words != [] && ((words[0] == "-n" && |words| == 2) || !("-" <= words[|words| - 1]))
    ensures Answers(app, environments, words,
                    match Completions(app, environments, words) case None => [] case Some(table) => [table])
  {
    var last := words[|words| - 1];
    DashesFirst(last);
    OffersPlain(environments, last);
    OffersPlain(SubcommandNames(app.subcommands), last);
    forall n
      ensures n in SubcommandNames(app.subcommands) <==> exists s <- app.subcommands :: s.name == n
    {
      NamesOfSubcommands(app.subcommands, n);
    }
  }

  /** The four branches, by membership. */
  lemma CompletionsAnswer(app: App, environments: seq<string>, words: seq<string>)
    requires words != []
    ensures Answers(app, environments, words,
                    match Completions(app, environments, words) case None => [] case Some(table) => [table])
  {
    if (words[0] == "-n" && |words| == 2) || !("-" <= words[|words| - 1]) {
      NamesAnswer(app, environments, words);
    } else {
      OptionsAnswer(app, environments, words);
    }
  }

  /** One call of the program: the flag that the callbacks share, and the tables printed. */
  class Session {
    var completed: bool
    var printed: seq<seq<string>>

    /** At most one table is printed, and only by a callback that set the flag. */
    ghost predicate Valid()
      reads this
    {
      |printed| <= (if completed then 1 else 0)
    }

    constructor ()
      ensures Valid() && !completed && printed == []
    {
      completed, printed := false, [];
    }

    /** The first callback with words to complete answers, with the names that complete the last word;
        all later ones are silent. */
    method CompleteOptions(app: App, environments: seq<string>, words: seq<string>)
      requires Valid()
      modifies this
      ensures Valid()
      ensures old(completed) || words == [] ==> completed == old(completed) && printed == old(printed)
      ensures !old(completed) && words != [] ==>
                completed && printed == match Completions(app, environments, words)
                                        case None => [] case Some(table) => [table]
      ensures !old(completed) && words != [] ==> Answers(app, environments, words, printed)
    {
      if words != [] {
        CompletionsAnswer(app, environments, words);
      }
      if completed || |words| == 0 {
        return;
      }
      completed := true;
      var options := [];
      var last := words[|words| - 1];
      if words[0] == "-n" && |words| == 2 {
        options := Collect(environments, last, "");
      } else if "-" <= last {
        var start := LStripDashes(last);
        if "--" <= last {
          options := Collect(app.longNames, start, "--");
        } else {
          if start == "" {
            return;
          }
          options := Collect(app.shortNames, start, "-");
        }
      } else {
        options := Collect(SubcommandNames(app.subcommands), last, "");
      }
      printed := printed + [options];
    }
  }

  lemma {:induction false} OffersExtend(names: seq<string>, start: string, prefix: string)
    ensures forall o <- Offers(names, start, prefix) :: prefix + start <= o
  {
    if names != [] {
      OffersExtend(names[1..], start, prefix);
      if start <= names[0] {
        assert prefix + names[0] == (prefix + start) + names[0][|start|..];
      }
    }
  }

  /** Everything offered begins with the word that was typed, unless options are asked for with
      three or more dashes; then nothing that is offered does. Long names never begin with a dash,
      which CLI11 sees to when an option is added. */
  lemma OffersBeginWithWord(app: App, environments: seq<string>, words: seq<string>)
    requires words != [] && Completions(app, environments, words).Some?
    requires forall n <- app.longNames :: !("-" <= n)
    ensures var last := words[|words| - 1];
            forall o <- Completions(app, environments, words).value ::
              last <= o <==> !("---" <= last) || (words[0] == "-n" && |words| == 2)
  {
    var last := words[|words| - 1];
    if words[0] == "-n" && |words| == 2 {
      NamesExtend(environments, last);
    } else if "--" <= last {
      LongOffersExtend(app.longNames, last);
    } else if "-" <= last {
      ShortOffersExtend(app.shortNames, last);
    } else {
      NamesExtend(SubcommandNames(app.subcommands), last);
    }
  }

  lemma NamesExtend(names: seq<string>, last: string)
    ensures forall o <- Offers(names, last, "") :: last <= o
  {
    OffersExtend(names, last, "");
    assert "" + last == last;
  }

  lemma ShortOffersExtend(names: seq<string>, last: string)
    requires "-" <= last && !("--" <= last)
    ensures forall o <- Offers(names, LStripDashes(last), "-") :: last <= o
  {
    var start := LStripDashes(last);
    OneDash(last);
    OffersExtend(names, start, "-");
  }

  lemma TwoDashes(s: string)
    ensures "--" <= s <==> |s| >= 2 && s[0] == s[1] == '-'
  {}

  lemma OneDash(last: string)
    requires "-" <= last && !("--" <= last)
    ensures "-" + LStripDashes(last) == last
  {
    TwoDashes(last);
    BehindOneDash(last, LStripDashes(last));
  }

  /** What is left of a word behind its leading dashes, when there is just one. */
  lemma BehindOneDash(word: string, start: string)
    requires word != "" && word[0] == '-' && (|word| >= 2 ==> word[1] != '-')
    requires |start| <= |word| && word[|word| - |start|..] == start
    requires forall i :: 0 <= i < |word| - |start| ==> word[i] == '-'
    requires start == "" || start[0] != '-'
    ensures "-" + start == word
  {
    var k := |word| - |start|;
    assert word == word[..k] + start;
    assert k == 1;
  }

  lemma LongOffersExtend(names: seq<string>, last: string)
    requires "--" <= last
    requires forall n <- names :: !("-" <= n)
    ensures forall o <- Offers(names, LStripDashes(last), "--") :: last <= o <==> !("---" <= last)
  {
    var start := LStripDashes(last);
    OffersExtend(names, start, "--");
    LongOffers(names, start);
    if |last| - |start| == 2 {
      assert last == "--" + start;
    } else {
      assert last[2] == '-';
    }
  }

  lemma DashesBefore(n: string)
    ensures "---" <= "--" + n <==> "-" <= n
  {
    assert ("--" + n)[2..] == n;
    assert "---" == "--" + "-";
    assert "---" <= "--" + n ==> ("--" + n)[..3][2..] == n[..1];
  }

  lemma {:induction false} LongOffers(names: seq<string>, start: string)
    requires forall n <- names :: !("-" <= n)
    ensures forall o <- Offers(names, start, "--") :: !("---" <= o)
  {
    if names != [] {
      assert names[0] in names && forall n <- names[1..] :: n in names;
      LongOffers(names[1..], start);
      DashesBefore(names[0]);
    }
  }
}
