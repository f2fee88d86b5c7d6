/** The string operations of Python that the release scripts rely on. */
module PyText {
  import opened Wrappers

  /** The characters for which `str.isspace` holds; `\s` in a pattern means the same set. */
  predicate IsSpace(c: char) {
    || '\t' <= c <= '\r'
    || '\U{1C}' <= c <= ' '
    || c == '\U{85}'
    || c == '\U{A0}'
    || c == '\U{1680}'
    || '\U{2000}' <= c <= '\U{200A}'
    || c == '\U{2028}' || c == '\U{2029}'
    || c == '\U{202F}' || c == '\U{205F}'
    || c == '\U{3000}'
  }

  predicate AllSpace(s: string) {
    forall c <- s :: IsSpace(c)
  }

  /** Holds of a non-empty run of ASCII digits. */
  predicate IsDigits(s: string) {
    s != "" && forall c <- s :: IsDigit(c)
  }

  predicate IsDigit(c: char) {
    '0' <= c <= '9'
  }

  // ---------- strip ----------

  function LStrip(s: string): string {
    if s != "" && IsSpace(s[0]) then LStrip(s[1..]) else s
  }

  function RStrip(s: string): string {
    if s != "" && IsSpace(s[|s| - 1]) then RStrip(s[..|s| - 1]) else s
  }

  function Strip(s: string): string {
    RStrip(LStrip(s))
  }

  predicate Trimmed(s: string) {
    s == "" || (!IsSpace(s[0]) && !IsSpace(s[|s| - 1]))
  }

  lemma {:induction false} LStripDrops(a: string, s: string)
    requires AllSpace(a)
    ensures LStrip(a + s) == LStrip(s)
  {
    if a == "" {
      assert a + s == s;
    } else {
      assert (a + s)[1..] == a[1..] + s;
      LStripDrops(a[1..], s);
    }
  }

  lemma {:induction false} RStripDrops(s: string, b: string)
    requires AllSpace(b)
    ensures RStrip(s + b) == RStrip(s)
  {
    if b == "" {
      assert s + b == s;
    } else {
      assert (s + b)[..|s + b| - 1] == s + b[..|b| - 1];
      RStripDrops(s, b[..|b| - 1]);
    }
  }

  lemma {:induction false} RStripSplits(s: string) returns (b: string)
    ensures AllSpace(b) && s == RStrip(s) + b
    ensures RStrip(s) == "" || !IsSpace(RStrip(s)[|RStrip(s)| - 1])
  {
    if s != "" && IsSpace(s[|s| - 1]) {
      b := RStripSplits(s[..|s| - 1]);
      b := b + [s[|s| - 1]];
    } else {
      b := "";
    }
  }

  lemma {:induction false} LStripSplits(s: string) returns (a: string)
    ensures AllSpace(a) && s == a + LStrip(s)
    ensures LStrip(s) == "" || !IsSpace(LStrip(s)[0])
  {
    if s != "" && IsSpace(s[0]) {
      a := LStripSplits(s[1..]);
      a := [s[0]] + a;
    } else {
      a := "";
    }
  }

  /** What strip removes: spaces in front, spaces behind, and no more is there to remove. */
  lemma StripSplits(s: string) returns (a: string, b: string)
    ensures AllSpace(a) && AllSpace(b)
    ensures s == a + Strip(s) + b
    ensures Trimmed(Strip(s))
  {
    a := LStripSplits(s);
    b := RStripSplits(LStrip(s));
    var t := Strip(s);
    assert LStrip(s) == t + b;
    if t != "" {
      assert LStrip(s)[0] == t[0];
    }
  }

  /** The only trimmed text between two runs of spaces is the stripped text. */
  lemma StripIs(a: string, t: string, b: string)
    requires AllSpace(a) && AllSpace(b) && Trimmed(t)
    ensures Strip(a + t + b) == t
  {
    assert a + t + b == a + (t + b);
    LStripDrops(a, t + b);
    if t == "" {
      assert t + b == b + "";
      LStripDrops(b, "");
    } else {
      assert LStrip(t + b) == t + b;
      RStripDrops(t, b);
    }
  }

  lemma StripPadded(a: string, s: string, b: string)
    requires AllSpace(a) && AllSpace(b)
    ensures Strip(a + s + b) == Strip(s)
  {
    var x, y := StripSplits(s);
    assert a + s + b == (a + x) + Strip(s) + (y + b);
    StripIs(a + x, Strip(s), y + b);
  }

  lemma StripTrimmed(s: string)
    ensures Trimmed(Strip(s))
    ensures Trimmed(s) ==> Strip(s) == s
    ensures Strip(s) == "" <==> AllSpace(s)
    ensures forall c <- Strip(s) :: c in s
  {
    var a, b := StripSplits(s);
    if Trimmed(s) {
      assert s == "" + s + "";
      StripIs("", s, "");
    }
    assert Strip(s) != "" ==> s[|a|] == Strip(s)[0] && !IsSpace(Strip(s)[0]);
  }

  // ---------- cutting at a character ----------

  /** The text before and after the first occurrence of `c`. */
  function Cut(s: string, c: char): Option<(string, string)> {
    if s == "" then None
    else if s[0] == c then Some(("", s[1..]))
    else match Cut(s[1..], c)
      case None => None
      case Some((a, b)) => Some(([s[0]] + a, b))
  }

  lemma {:induction false} CutAt(a: string, c: char, b: string)
    requires c !in a
    ensures Cut(a + [c] + b, c) == Some((a, b))
  {
    if a == "" {
      assert a + [c] + b == [c] + b;
    } else {
      assert (a + [c] + b)[1..] == a[1..] + [c] + b;
      assert [a[0]] + a[1..] == a;
      CutAt(a[1..], c, b);
    }
  }

  /** Cutting fails just when the character does not occur, and loses nothing. */
  lemma {:induction false} CutSplits(s: string, c: char)
    ensures Cut(s, c).None? <==> c !in s
    ensures Cut(s, c).Some? ==>
              && s == Cut(s, c).value.0 + [c] + Cut(s, c).value.1
              && c !in Cut(s, c).value.0
              && |Cut(s, c).value.1| < |s|
  {
    if s != "" && s[0] != c {
      CutSplits(s[1..], c);
      assert s == [s[0]] + s[1..];
    }
  }

  // ---------- split and join ----------

  /** `s.split(c)`: one field more than there are occurrences of `c`. */
  function Split(s: string, c: char): (fields: seq<string>)
    ensures fields != []
    decreases |s|
  {
    CutSplits(s, c);
    match Cut(s, c)
    case None => [s]
    case Some((a, b)) => [a] + Split(b, c)
  }

  function Join(sep: string, parts: seq<string>): string {
    if parts == [] then ""
    else if |parts| == 1 then parts[0]
    else parts[0] + sep + Join(sep, parts[1..])
  }

  /** Splitting loses nothing, and the fields do not contain the separator. */
  lemma {:induction false} SplitJoin(s: string, c: char)
    ensures Join([c], Split(s, c)) == s
    ensures forall f <- Split(s, c) :: c !in f
    decreases |s|
  {
    CutSplits(s, c);
    if Cut(s, c).Some? {
      SplitJoin(Cut(s, c).value.1, c);
    }
  }

  /** Fields without the separator are recovered from their join. */
  lemma {:induction false} JoinSplit(fields: seq<string>, c: char)
    requires fields != []
    requires forall f <- fields :: c !in f
    ensures Split(Join([c], fields), c) == fields
  {
    if |fields| == 1 {
      CutSplits(fields[0], c);
    } else {
      JoinSplit(fields[1..], c);
      CutAt(fields[0], c, Join([c], fields[1..]));
    }
  }

  // ---------- lines ----------

  /** `readlines`: the lines of a text, each with the newline that ends it. */
  function Lines(s: string): seq<string>
    decreases |s|
  {
    CutSplits(s, '\n');
    match Cut(s, '\n')
    case None => if s == "" then [] else [s]
    case Some((a, b)) => [a + "\n"] + Lines(b)
  }

  lemma LinesCons(line: string, rest: string)
    requires '\n' !in line
    ensures Lines(line + "\n" + rest) == [line + "\n"] + Lines(rest)
  {
    CutAt(line, '\n', rest);
  }

  /** The first line begins with whatever newline-free text the whole begins with. */
  lemma LinesHead(s: string, p: string)
    requires p <= s && p != "" && '\n' !in p
    ensures Lines(s) != [] && p <= Lines(s)[0]
  {
    CutSplits(s, '\n');
    if Cut(s, '\n').Some? {
      var (a, b) := Cut(s, '\n').value;
      assert s[|a|] == '\n';
      assert forall i :: 0 <= i < |p| ==> p[i] == s[i];
      assert p <= a;
    }
  }

  lemma LinesFirstChar(s: string)
    requires s != ""
    ensures Lines(s) != [] && Lines(s)[0] != "" && Lines(s)[0][0] == s[0]
  {
  }

  /** Reading lines loses nothing. */
  lemma {:induction false} LinesJoin(s: string)
    ensures Join("", Lines(s)) == s
    decreases |s|
  {
    CutSplits(s, '\n');
    if Cut(s, '\n').Some? {
      var (a, b) := Cut(s, '\n').value;
      LinesJoin(b);
      if Lines(b) == [] {
        assert s == a + "\n";
      } else {
        assert Lines(s)[1..] == Lines(b);
      }
    }
  }

  // ---------- runs of characters ----------

  function TakeWhile(p: char -> bool, s: string): (r: string)
    ensures r <= s
    ensures forall c <- r :: p(c)
  {
    if s != "" && p(s[0]) then [s[0]] + TakeWhile(p, s[1..]) else ""
  }

  function DropWhile(p: char -> bool, s: string): string {
    s[|TakeWhile(p, s)|..]
  }

  lemma {:induction false} TakeWhileIs(p: char -> bool, a: string, b: string)
    requires forall c <- a :: p(c)
    requires b == "" || !p(b[0])
    ensures TakeWhile(p, a + b) == a && DropWhile(p, a + b) == b
  {
    if a == "" {
      assert a + b == b;
    } else {
      assert (a + b)[1..] == a[1..] + b;
      TakeWhileIs(p, a[1..], b);
    }
  }
}
