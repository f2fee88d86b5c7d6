/** Which versions survive being printed on a release line and matched again. */
module ReleaseLines {
  import opened Wrappers
  import opened PyText
  import opened ReleaserSpec
  import opened UpdateChangelog
  import VersionScheme

  /** One-digit major and minor numbers, a patch number, and then only words and dots. */
  predicate Readable(v: string) {
    ThreeDigits(v) && forall c <- v[5..] :: IsDotWord(c)
  }

  lemma ReadableShape(v: string, a: string, b: string, c: string, rest: string)
    requires VersionScheme.Spells(v, a, b, c, rest)
    requires IsDigits(a) && IsDigits(b) && IsDigits(c)
    ensures Readable(v) <==> |a| == 1 && |b| == 1 && forall x <- rest :: IsDotWord(x)
  {
    assert forall i :: 0 <= i < |a| ==> v[i] == a[i];
    assert v[|a|] == '.';
    if |a| == 1 {
      assert forall i :: 0 <= i < |b| ==> v[2 + i] == b[i];
      assert v[2 + |b|] == '.';
      if |b| == 1 {
        assert v[4] == c[0];
        assert v[5..] == c[1..] + rest;
        assert forall x <- rest :: x in v[5..];
        assert forall x <- v[5..] :: x in c || x in rest;
        assert v[0] == a[0] && v[2] == b[0];
      } else {
        assert v[3] == b[1] && b[1] in b;
      }
    } else {
      assert v[1] == a[1] && a[1] in a;
    }
  }

  /** In terms of the parts of an accepted version: the pattern has room for one digit only in
      the first two places. */
  lemma ReadableParts(v: string)
    requires VersionScheme.Parse(v).Ok?
    ensures var p := VersionScheme.Parse(v).value;
            Readable(v) <==> |p.major| == 1 && |p.minor| == 1 && forall c <- p.preRelease :: IsDotWord(c)
  {
    var p := VersionScheme.Parse(v).value;
    var f := Split(v, '.');
    VersionScheme.FieldsSpell(v);
    var rest := if |f| > 3 then "." + Join(".", f[3..]) else "";
    ReadableShape(v, p.major, p.minor, p.patch, rest);
    assert rest == "" || rest == "." + p.preRelease;
  }

  /** Whatever version the pattern finds is readable. */
  lemma {:induction false} FoundIsReadable(s: string)
    ensures SearchRelease(s).Some? ==> Readable(SearchRelease(s).value.0)
  {
    if MatchReleaseAt(s).Some? {
      var version := MatchReleaseAt(s).value.0;
      var b := DropWhile(IsSpace, DropWhile(IsE, s[6..])[1..]);
      assert version[..5] == b[..5];
      assert version[5..] == TakeWhile(IsDotWord, b[5..]);
    } else if s != "" {
      FoundIsReadable(s[1..]);
    }
  }

  lemma ProjectsAreNames()
    ensures forall c <- PROJECTS :: IsNameChar(c)
  {
  }

  lemma KeyMatches(b: string)
    requires b != "" && !IsSpace(b[0])
    ensures MatchKey("Release: " + b) == Some(b)
  {
    var s := "Release: " + b;
    assert s[6..] == "e" + (": " + b);
    TakeWhileIs(IsE, "e", ": " + b);
    assert (": " + b)[1..] == " " + b;
    TakeWhileIs(IsSpace, " ", b);
  }

  lemma VersionMatches(v: string, e: string)
    requires Readable(v) && "(" <= e
    ensures var b := v + (" " + e);
            && ThreeDigits(b)
            && b[..5] + TakeWhile(IsDotWord, b[5..]) == v
            && b[|v|..] == " " + e
            && DropWhile(IsSpace, b[|v|..]) == e
  {
    var b := v + (" " + e);
    assert b[5..] == v[5..] + (" " + e);
    TakeWhileIs(IsDotWord, v[5..], " " + e);
    TakeWhileIs(IsSpace, " ", e);
  }

  lemma ValueMatches(v: string, names: string, tail: string)
    requires Readable(v)
    requires names != "" && forall c <- names :: IsNameChar(c)
    ensures MatchValue(v + (" " + ("(" + (names + (")" + tail))))) == Some((v, names))
  {
    var e := "(" + (names + (")" + tail));
    VersionMatches(v, e);
    assert e[1..] == names + (")" + tail);
    TakeWhileIs(IsNameChar, names, ")" + tail);
    assert e[1 + |names|..] == ")" + tail;
  }

  lemma LineParts(v: string)
    ensures ReleaseLine(v) + "\n" == "Release: " + (v + (" " + ("(" + (PROJECTS + (")" + "\n")))))
  {
  }

  /** A readable version is matched at the very beginning of its line. */
  lemma PrintedMatches(v: string)
    requires Readable(v)
    ensures SearchRelease(ReleaseLine(v) + "\n") == Some((v, PROJECTS))
  {
    LineParts(v);
    ProjectsAreNames();
    ValueMatches(v, PROJECTS, "\n");
    KeyMatches(v + (" " + ("(" + (PROJECTS + (")" + "\n")))));
  }

  // ---------- versions that are not readable ----------

  lemma {:induction false} NothingFound(s: string)
    requires forall i :: 0 <= i <= |s| ==> MatchReleaseAt(s[i..]).None?
    ensures SearchRelease(s) == None
  {
    assert s[0..] == s;
    if s != "" {
      forall i | 0 <= i <= |s[1..]|
        ensures MatchReleaseAt(s[1..][i..]).None?
      {
        assert s[1..][i..] == s[i + 1..];
      }
      NothingFound(s[1..]);
    }
  }

  /** A match needs a colon behind `Releas` and any number of `e`. */
  lemma KeyHasColon(s: string, i: nat) returns (k: nat)
    requires i <= |s| && MatchKey(s[i..]).Some?
    ensures i < k < |s| && s[k] == ':' && s[i] == 'R' && k >= i + 6
  {
    var t := s[i..];
    var es := TakeWhile(IsE, t[6..]);
    assert DropWhile(IsE, t[6..])[0] == ':';
    assert t[0] == 'R';
    k := i + 6 + |es|;
  }

  /** A version of words and dots that is not readable is not found at all: the only colon of
      the line is the one behind `Release`. */
  lemma UnreadableNotFound(v: string)
    requires !Readable(v) && forall c <- v :: IsDotWord(c)
    ensures SearchRelease(ReleaseLine(v) + "\n") == None
  {
    var s := ReleaseLine(v) + "\n";
    OnlyColon(v);
    forall i | 0 <= i <= |s|
      ensures MatchReleaseAt(s[i..]).None?
    {
      if i == 0 {
        assert s[0..] == s;
        ValueFails(v);
      } else if MatchKey(s[i..]).Some? {
        var k := KeyHasColon(s, i);
        assert false;
      }
    }
    NothingFound(s);
  }

  lemma OnlyColon(v: string)
    requires forall c <- v :: IsDotWord(c)
    ensures var s := ReleaseLine(v) + "\n";
            s[1] == 'e' && forall i :: 0 <= i < |s| && s[i] == ':' ==> i == 7
  {
    ProjectsAreNames();
    LineParts(v);
    var t := " " + ("(" + (PROJECTS + (")" + "\n")));
    assert ':' !in t;
    var h := "Release: ";
    assert forall i :: 0 <= i < |h| && h[i] == ':' ==> i == 7;
    OnlyColonIn(h, v, t);
  }

  lemma OnlyColonIn(h: string, v: string, t: string)
    requires |h| == 9 && ':' !in v && ':' !in t
    requires forall i :: 0 <= i < |h| && h[i] == ':' ==> i == 7
    ensures var s := h + (v + t); forall i :: 0 <= i < |s| && s[i] == ':' ==> i == 7
  {
  }

  lemma NoVersionFails(t: string)
    requires "(" <= t
    ensures MatchReleaseAt("Release: " + (" " + t)).None?
  {
    assert ("Release: " + (" " + t))[6..] == "e" + (":  " + t);
    TakeWhileIs(IsE, "e", ":  " + t);
    assert (":  " + t)[1..] == "  " + t;
    TakeWhileIs(IsSpace, "  ", t);
  }

  lemma WordsFail(v: string, t: string)
    requires v != "" && !Readable(v) && forall c <- v :: IsDotWord(c)
    ensures MatchReleaseAt("Release: " + (v + (" " + t))).None?
  {
    assert (v + (" " + t))[0] == v[0] && v[0] in v;
    KeyMatches(v + (" " + t));
    NoThreeDigits(v, " " + t);
  }

  lemma ValueFails(v: string)
    requires !Readable(v) && forall c <- v :: IsDotWord(c)
    ensures MatchReleaseAt(ReleaseLine(v) + "\n").None?
  {
    LineParts(v);
    var t := "(" + (PROJECTS + (")" + "\n"));
    if v == "" {
      assert v + (" " + t) == " " + t;
      NoVersionFails(t);
    } else {
      WordsFail(v, t);
    }
  }

  lemma NoThreeDigits(v: string, t: string)
    requires !Readable(v) && (forall c <- v :: IsDotWord(c)) && " " <= t
    ensures !ThreeDigits(v + t)
  {
  }
}
