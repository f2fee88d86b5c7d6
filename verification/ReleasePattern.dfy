/** The pattern of a release line, `Release*:\s+(\d\.\d\.\d[\.\w]*)\s+\(([\w,\s]+)\)\s*`: the matcher finds
    exactly what the pattern describes, and the leftmost of it. */
module ReleasePattern {
  import opened Wrappers
  import opened Sequences
  import opened PyText
  import opened ReleaserSpec
  import opened ReleaseLines

  predicate All(s: string, p: char -> bool) {
    forall c <- s :: p(c)
  }

  /** The parts of a match, in the order of the pattern. */
  datatype Parts = Parts(es: string, gap: string, version: string, space: string, names: string, tail: string)

  function Spelled(p: Parts): string {
    "Releas" + (p.es + (":" + (p.gap + Value(p))))
  }

  function Value(p: Parts): string {
    p.version + (p.space + ("(" + (p.names + (")" + p.tail))))
  }

  predicate FitPattern(p: Parts) {
    && All(p.es, c => c == 'e')
    && p.gap != "" && All(p.gap, IsSpace)
    && Readable(p.version)
    && p.space != "" && All(p.space, IsSpace)
    && p.names != "" && All(p.names, IsNameChar)
  }

  // ---------- what fits is matched ----------

  lemma KeyFits(p: Parts)
    requires FitPattern(p)
    ensures MatchKey(Spelled(p)) == Some(Value(p))
  {
    var s, value := Spelled(p), Value(p);
    assert s[6..] == p.es + (":" + (p.gap + value));
    TakeWhileIs(IsE, p.es, ":" + (p.gap + value));
    assert (":" + (p.gap + value))[1..] == p.gap + value;
    assert value[0] == p.version[0] && IsDigit(value[0]) && !IsSpace(value[0]);
    TakeWhileIs(IsSpace, p.gap, value);
  }

  lemma VersionFits(version: string, space: string, e: string)
    requires Readable(version) && space != "" && All(space, IsSpace) && "(" <= e
    ensures var b := version + (space + e);
            && ThreeDigits(b)
            && b[..5] + TakeWhile(IsDotWord, b[5..]) == version
            && DropWhile(IsSpace, b[|version|..]) == e && b[|version|..] == space + e
  {
    var b := version + (space + e);
    assert b[5..] == version[5..] + (space + e);
    assert space[0] in space;
    TakeWhileIs(IsDotWord, version[5..], space + e);
    assert b[|version|..] == space + e;
    TakeWhileIs(IsSpace, space, e);
  }

  lemma ValueFits(p: Parts)
    requires FitPattern(p)
    ensures MatchValue(Value(p)) == Some((p.version, p.names))
  {
    var e := "(" + (p.names + (")" + p.tail));
    VersionFits(p.version, p.space, e);
    assert e[1..] == p.names + (")" + p.tail);
    TakeWhileIs(IsNameChar, p.names, ")" + p.tail);
    assert e[1 + |p.names|..] == ")" + p.tail;
  }

  // ---------- what is matched fits ----------

  lemma TakenDropped(p: char -> bool, s: string)
    ensures s == TakeWhile(p, s) + DropWhile(p, s) && All(TakeWhile(p, s), p)
  {
  }

  lemma KeyMatched(s: string) returns (es: string, gap: string, b: string)
    requires MatchKey(s).Some?
    ensures b == MatchKey(s).value
    ensures s == "Releas" + (es + (":" + (gap + b)))
    ensures All(es, c => c == 'e') && gap != "" && All(gap, IsSpace)
  {
    es := TakeWhile(IsE, s[6..]);
    var a := DropWhile(IsE, s[6..]);
    TakenDropped(IsE, s[6..]);
    gap := TakeWhile(IsSpace, a[1..]);
    b := DropWhile(IsSpace, a[1..]);
    TakenDropped(IsSpace, a[1..]);
    assert s == "Releas" + s[6..];
    assert a == ":" + a[1..];
  }

  lemma VersionTaken(b: string)
    requires ThreeDigits(b)
    ensures var version := b[..5] + TakeWhile(IsDotWord, b[5..]);
            Readable(version) && version <= b
  {
    var version := b[..5] + TakeWhile(IsDotWord, b[5..]);
    TakenDropped(IsDotWord, b[5..]);
    assert version[5..] == TakeWhile(IsDotWord, b[5..]) && version[..5] == b[..5];
    assert b == b[..5] + b[5..];
  }

  /** What the matcher has taken, piece by piece. */
  predicate Taken(b: string, version: string, names: string, e: string) {
    && ThreeDigits(b) && version == b[..5] + TakeWhile(IsDotWord, b[5..]) && |version| <= |b|
    && e == DropWhile(IsSpace, b[|version|..]) && |e| != |b| - |version|
    && "(" <= e && names == TakeWhile(IsNameChar, e[1..]) && names != "" && ")" <= e[1 + |names|..]
  }

  lemma ValueTakes(b: string, version: string, names: string) returns (e: string)
    requires MatchValue(b) == Some((version, names))
    ensures Taken(b, version, names, e)
  {
    e := DropWhile(IsSpace, b[|version|..]);
  }

  lemma ValueMatched(b: string, version: string, names: string, e: string) returns (space: string, tail: string)
    requires Taken(b, version, names, e)
    ensures b == version + (space + ("(" + (names + (")" + tail))))
    ensures Readable(version) && space != "" && All(space, IsSpace) && names != "" && All(names, IsNameChar)
  {
    VersionTaken(b);
    space := TakeWhile(IsSpace, b[|version|..]);
    TakenDropped(IsSpace, b[|version|..]);
    tail := NamesTaken(e, names);
  }

  lemma NamesTaken(e: string, names: string) returns (tail: string)
    requires "(" <= e && names == TakeWhile(IsNameChar, e[1..]) && ")" <= e[1 + |names|..]
    ensures e == "(" + (names + (")" + tail)) && All(names, IsNameChar)
  {
    TakenDropped(IsNameChar, e[1..]);
    tail := e[1 + |names| + 1..];
    assert e[1 + |names|..] == ")" + tail;
    assert e[1..] == names + e[1 + |names|..];
    assert e == "(" + e[1..];
  }

  /** The matcher at the head of a text: it matches if and only if the text begins as the pattern says,
      and then with these two groups. */
  lemma MatchIsPattern(s: string, version: string, names: string)
    ensures MatchReleaseAt(s) == Some((version, names))
            <==> exists p :: FitPattern(p) && Spelled(p) == s && p.version == version && p.names == names
  {
    if MatchReleaseAt(s) == Some((version, names)) {
      var es, gap, b := KeyMatched(s);
      var e := ValueTakes(b, version, names);
      var space, tail := ValueMatched(b, version, names, e);
      var p := Parts(es, gap, version, space, names, tail);
      assert FitPattern(p) && Spelled(p) == s;
    }
    if p :| FitPattern(p) && Spelled(p) == s && p.version == version && p.names == names {
      KeyFits(p);
      ValueFits(p);
    }
  }

  /** A search with any matcher: its result at the first place where it matches. */
  function Leftmost<T>(matcher: string -> Option<T>, s: string): Option<T> {
    if matcher(s).Some? || s == "" then matcher(s) else Leftmost(matcher, s[1..])
  }

  lemma {:induction false} LeftmostIs<T>(matcher: string -> Option<T>, s: string)
    ensures match Leftmost(matcher, s)
            case None => forall i :: 0 <= i <= |s| ==> matcher(s[i..]).None?
            case Some(found) =>
              exists i :: 0 <= i <= |s| && matcher(s[i..]) == Some(found)
                          && forall j :: 0 <= j < i ==> matcher(s[j..]).None?
  {
    assert s[0..] == s;
    if matcher(s).None? && s != "" {
      var rest := s[1..];
      LeftmostIs(matcher, rest);
      assert forall i :: 0 < i <= |s| ==> s[i..] == rest[i - 1..];
      match Leftmost(matcher, rest)
      case None =>
      case Some(found) =>
        var i :| 0 <= i <= |rest| && matcher(rest[i..]) == Some(found)
                 && forall j :: 0 <= j < i ==> matcher(rest[j..]).None?;
        assert s[i + 1..] == rest[i..];
    }
  }

  lemma {:induction false} SearchIsSearch(s: string)
    ensures SearchRelease(s) == Leftmost(MatchReleaseAt, s)
  {
    if s != "" {
      SearchIsSearch(s[1..]);
    }
  }

  /** The search in a line finds what the pattern describes at the leftmost place where it fits. */
  lemma SearchIsLeftmost(s: string)
    ensures match SearchRelease(s)
            case None => forall i :: 0 <= i <= |s| ==> MatchReleaseAt(s[i..]).None?
            case Some(found) =>
              exists i :: 0 <= i <= |s| && MatchReleaseAt(s[i..]) == Some(found)
                          && forall j :: 0 <= j < i ==> MatchReleaseAt(s[j..]).None?
  {
    SearchIsSearch(s);
    LeftmostIs(MatchReleaseAt, s);
  }
}
