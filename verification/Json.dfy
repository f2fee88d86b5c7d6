/** A reader for the part of JSON that is made of strings, arrays and objects (RFC 8259,
    sections 2, 4, 5 and 7). Texts that hold numbers or literals are not read. */
module Json {
  import opened Wrappers

  datatype Json = Str(text: string) | Arr(items: seq<Json>) | Obj(members: seq<Member>)

  datatype Member = Member(key: string, value: Json)

  /** Insignificant whitespace. */
  predicate IsWs(c: char) {
    c == ' ' || c == '\t' || c == '\n' || c == '\r'
  }

  /** Characters that may not stand for themselves in a string. */
  predicate NeedsEscape(c: char) {
    c == '"' || c == '\\' || c < ' '
  }

  predicate Clean(s: string) {
    forall c <- s :: !NeedsEscape(c)
  }

  function SkipWs(s: string): (r: string)
    ensures |r| <= |s|
    ensures r == "" || !IsWs(r[0])
  {
    if s != "" && IsWs(s[0]) then SkipWs(s[1..]) else s
  }

  // ---------- strings ----------

  function HexValue(c: char): Option<nat> {
    if '0' <= c <= '9' then Some((c - '0') as nat)
    else if 'a' <= c <= 'f' then Some((c - 'a') as nat + 10)
    else if 'A' <= c <= 'F' then Some((c - 'A') as nat + 10)
    else None
  }

  /** Four hexadecimal digits. */
  function Hex4(s: string): Option<nat> {
    if |s| < 4 then None
    else
      match (HexValue(s[0]), HexValue(s[1]), HexValue(s[2]), HexValue(s[3]))
      case (Some(a), Some(b), Some(c), Some(d)) => Some(((a * 16 + b) * 16 + c) * 16 + d)
      case _ => None
  }

  /** The character an escape stands for, given the text behind the backslash, and how much of
      that text belongs to it. Two `\u` escapes in a row may form a surrogate pair. */
  function Unescape(s: string): (r: Option<(char, nat)>)
    ensures r.Some? ==> 1 <= r.value.1 <= |s|
  {
    if s == "" then None
    else match s[0]
      case '"' => Some(('"', 1))
      case '\\' => Some(('\\', 1))
      case '/' => Some(('/', 1))
      case 'b' => Some(('\U{8}', 1))
      case 'f' => Some(('\U{C}', 1))
      case 'n' => Some(('\n', 1))
      case 'r' => Some(('\r', 1))
      case 't' => Some(('\t', 1))
      case 'u' =>
        (match Hex4(s[1..])
         case None => None
         case Some(n) =>
           if n < 0xD800 || 0xE000 <= n <= 0xFFFF then Some((n as char, 5))
           else if n >= 0xDC00 || |s| < 11 || s[5] != '\\' || s[6] != 'u' then None
           else match Hex4(s[7..])
             case None => None
             case Some(m) =>
               if 0xDC00 <= m < 0xE000
               then Some((((n - 0xD800) * 0x400 + (m - 0xDC00) + 0x10000) as char, 11))
               else None)
      case _ => None
  }

  /** A string behind its opening quote, up to and including the closing one. */
  function ReadString(s: string): (r: Option<(string, string)>)
    ensures r.Some? ==> |r.value.1| < |s|
    decreases |s|
  {
    if s == "" then None
    else if s[0] == '"' then Some(("", s[1..]))
    else if s[0] == '\\' then
      match Unescape(s[1..])
      case None => None
      case Some((c, n)) =>
        match ReadString(s[1 + n..])
        case None => None
        case Some((text, rest)) => Some(([c] + text, rest))
    else if s[0] < ' ' then None
    else
      match ReadString(s[1..])
      case None => None
      case Some((text, rest)) => Some(([s[0]] + text, rest))
  }

  // ---------- values ----------

  predicate Head(s: string, c: char) {
    s != "" && s[0] == c
  }

  /** A value at the head of a text, and the text behind it. */
  function ReadValue(s: string): (r: Option<(Json, string)>)
    ensures r.Some? ==> |r.value.1| < |s|
    decreases |s|, 0
  {
    if Head(s, '"') then
      match ReadString(s[1..])
      case None => None
      case Some((text, rest)) => Some((Str(text), rest))
    else if Head(s, '[') then
      var t := SkipWs(s[1..]);
      if Head(t, ']') then Some((Arr([]), t[1..]))
      else
        match ReadItems(t)
        case None => None
        case Some((items, rest)) => Some((Arr(items), rest))
    else if Head(s, '{') then
      var t := SkipWs(s[1..]);
      if Head(t, '}') then Some((Obj([]), t[1..]))
      else
        match ReadMembers(t)
        case None => None
        case Some((members, rest)) => Some((Obj(members), rest))
    else None
  }

  /** The items of an array, up to and including the closing bracket. */
  function ReadItems(s: string): (r: Option<(seq<Json>, string)>)
    ensures r.Some? ==> |r.value.1| < |s| && r.value.0 != []
    decreases |s|, 1
  {
    match ReadValue(s)
    case None => None
    case Some((v, rest)) =>
      var t := SkipWs(rest);
      if Head(t, ']') then Some(([v], t[1..]))
      else if Head(t, ',') then
        match ReadItems(SkipWs(t[1..]))
        case None => None
        case Some((vs, rest')) => Some(([v] + vs, rest'))
      else None
  }

  /** One member of an object: a name, a colon and a value. */
  function ReadMember(s: string): (r: Option<(Member, string)>)
    ensures r.Some? ==> |r.value.1| < |s|
    decreases |s|, 1
  {
    if !Head(s, '"') then None
    else
      match ReadString(s[1..])
      case None => None
      case Some((key, rest)) =>
        var t := SkipWs(rest);
        if !Head(t, ':') then None
        else
          match ReadValue(SkipWs(t[1..]))
          case None => None
          case Some((v, rest')) => Some((Member(key, v), rest'))
  }

  /** The members of an object, up to and including the closing brace. */
  function ReadMembers(s: string): (r: Option<(seq<Member>, string)>)
    ensures r.Some? ==> |r.value.1| < |s| && r.value.0 != []
    decreases |s|, 2
  {
    match ReadMember(s)
    case None => None
    case Some((m, rest)) =>
      var t := SkipWs(rest);
      if Head(t, '}') then Some(([m], t[1..]))
      else if Head(t, ',') then
        match ReadMembers(SkipWs(t[1..]))
        case None => None
        case Some((ms, rest')) => Some(([m] + ms, rest'))
      else None
  }

  /** A whole text: one value between whitespace. */
  function Parse(text: string): Option<Json> {
    match ReadValue(SkipWs(text))
    case None => None
    case Some((v, rest)) => if SkipWs(rest) == "" then Some(v) else None
  }

  // ---------- how much ink a value takes ----------

  /** The characters of a text that are not whitespace. */
  function Ink(s: string): nat {
    if s == "" then 0 else (if IsWs(s[0]) then 0 else 1) + Ink(s[1..])
  }

  lemma {:induction false} InkConcat(a: string, b: string)
    ensures Ink(a + b) == Ink(a) + Ink(b)
  {
    if a == "" {
      assert a + b == b;
    } else {
      assert (a + b)[1..] == a[1..] + b;
      InkConcat(a[1..], b);
    }
  }

  lemma {:induction false} InkSkipWs(s: string)
    ensures Ink(SkipWs(s)) == Ink(s)
  {
    if s != "" && IsWs(s[0]) {
      InkSkipWs(s[1..]);
    }
  }

  lemma {:induction false} InkDrop(s: string, n: nat)
    requires n <= |s|
    ensures Ink(s[n..]) <= Ink(s)
    ensures n >= 2 && !IsWs(s[0]) && !IsWs(s[1]) ==> Ink(s[n..]) + 2 <= Ink(s)
  {
    assert s == s[..n] + s[n..];
    InkConcat(s[..n], s[n..]);
    if n >= 2 {
      assert s[..n] == [s[0], s[1]] + s[2..n];
      InkConcat([s[0], s[1]], s[2..n]);
      assert [s[0], s[1]][1..] == [s[1]];
    }
  }

  /** The least ink a character of a string can be written with: two marks if it must be
      escaped, none for a space, one otherwise. */
  function CharInk(c: char): nat {
    if NeedsEscape(c) then 2 else if c == ' ' then 0 else 1
  }

  function StringInk(s: string): nat {
    if s == "" then 0 else CharInk(s[0]) + StringInk(s[1..])
  }

  /** The least ink of a value: its quotes, brackets, commas and colons, and its strings. */
  function ValueInk(v: Json): nat
    decreases v, 0
  {
    match v
    case Str(text) => 2 + StringInk(text)
    case Arr(items) => if items == [] then 2 else 1 + ItemsInk(items)
    case Obj(members) => if members == [] then 2 else 1 + MembersInk(members)
  }

  /** Items with the commas between them and the closing bracket. */
  function ItemsInk(items: seq<Json>): nat
    decreases items, 1
  {
    if items == [] then 0 else ValueInk(items[0]) + 1 + ItemsInk(items[1..])
  }

  function MembersInk(members: seq<Member>): nat
    decreases members, 1
  {
    if members == [] then 0
    else 2 + StringInk(members[0].key) + 1 + ValueInk(members[0].value) + 1 + MembersInk(members[1..])
  }

  lemma {:induction false} StringTakesInk(s: string)
    requires ReadString(s).Some?
    ensures var (text, rest) := ReadString(s).value; Ink(s) >= Ink(rest) + 1 + StringInk(text)
    decreases |s|
  {
    if s[0] == '\\' {
      var (c, n) := Unescape(s[1..]).value;
      StringTakesInk(s[1 + n..]);
      assert !IsWs(s[1]);
      InkDrop(s, 1 + n);
    } else if s[0] != '"' {
      StringTakesInk(s[1..]);
    }
  }

  lemma {:induction false} ValueTakesInk(s: string)
    requires ReadValue(s).Some?
    ensures var (v, rest) := ReadValue(s).value; Ink(s) >= Ink(rest) + ValueInk(v)
    decreases |s|, 0
  {
    if Head(s, '"') {
      StringTakesInk(s[1..]);
    } else {
      InkSkipWs(s[1..]);
      var t := SkipWs(s[1..]);
      if Head(s, '[') {
        if !Head(t, ']') {
          ItemsTakeInk(t);
        }
      } else if !Head(t, '}') {
        MembersTakeInk(t);
      }
    }
  }

  lemma {:induction false} ItemsTakeInk(s: string)
    requires ReadItems(s).Some?
    ensures var (items, rest) := ReadItems(s).value; Ink(s) >= Ink(rest) + ItemsInk(items)
    decreases |s|, 1
  {
    ValueTakesInk(s);
    var (v, rest) := ReadValue(s).value;
    InkSkipWs(rest);
    var t := SkipWs(rest);
    if Head(t, ',') {
      InkSkipWs(t[1..]);
      ItemsTakeInk(SkipWs(t[1..]));
    }
  }

  lemma {:induction false} MemberTakesInk(s: string)
    requires ReadMember(s).Some?
    ensures var (m, rest) := ReadMember(s).value;
            Ink(s) >= Ink(rest) + 2 + StringInk(m.key) + 1 + ValueInk(m.value)
    decreases |s|, 1
  {
    StringTakesInk(s[1..]);
    var (key, rest) := ReadString(s[1..]).value;
    InkSkipWs(rest);
    var t := SkipWs(rest);
    InkSkipWs(t[1..]);
    ValueTakesInk(SkipWs(t[1..]));
  }

  lemma {:induction false} MembersTakeInk(s: string)
    requires ReadMembers(s).Some?
    ensures var (members, rest) := ReadMembers(s).value; Ink(s) >= Ink(rest) + MembersInk(members)
    decreases |s|, 2
  {
    MemberTakesInk(s);
    var (m, rest) := ReadMember(s).value;
    InkSkipWs(rest);
    var t := SkipWs(rest);
    if Head(t, ',') {
      InkSkipWs(t[1..]);
      MembersTakeInk(SkipWs(t[1..]));
    }
  }

  /** No text is read as a value without the ink that the value takes. */
  lemma ParsedHasInk(text: string)
    requires Parse(text).Some?
    ensures Ink(text) >= ValueInk(Parse(text).value)
  {
    InkSkipWs(text);
    ValueTakesInk(SkipWs(text));
  }

  // ---------- clean strings ----------

  /** A clean string between quotes is read to the letter. */
  lemma {:induction false} CleanIsRead(s: string, rest: string)
    requires Clean(s)
    ensures ReadString(s + "\"" + rest) == Some((s, rest))
  {
    if s == "" {
      assert s + "\"" + rest == "\"" + rest;
    } else {
      assert (s + "\"" + rest)[1..] == s[1..] + "\"" + rest;
      assert s[0] in s && forall c <- s[1..] :: c in s;
      CleanIsRead(s[1..], rest);
      assert [s[0]] + s[1..] == s;
    }
  }

  /** Written as it is, a string has the least ink if and only if it is clean. */
  lemma {:induction false} CleanHasInk(s: string)
    ensures Ink(s) <= StringInk(s)
    ensures Ink(s) == StringInk(s) <==> Clean(s)
  {
    if s != "" {
      CleanHasInk(s[1..]);
      assert s == [s[0]] + s[1..];
    }
  }
}
