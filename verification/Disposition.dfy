/** The Content-Disposition header the façade prints (section 4.1 of RFC 6266) and
    the two client parsers that read the file name back. */
module Disposition {
  import opened Prelude

  /** The characters `str.strip()` removes. */
  predicate Space(c: char) {
    '\t' <= c <= '\r' || '\U{1C}' <= c <= ' ' || c == '\U{85}' || c == '\U{A0}' || c == '\U{1680}'
    || '\U{2000}' <= c <= '\U{200A}' || c == '\U{2028}' || c == '\U{2029}' || c == '\U{202F}'
    || c == '\U{205F}' || c == '\U{3000}'
  }

  lemma SpaceCodes(c: char)
    ensures Space(c) <==>
      var p := c as int;
      9 <= p <= 13 || 28 <= p <= 32 || p == 133 || p == 160 || p == 5760 || 8192 <= p <= 8202
      || p == 8232 || p == 8233 || p == 8239 || p == 8287 || p == 12288
  {}

  predicate Quote(c: char) {
    c == '"'
  }

  function TrimLeft(s: string, p: char -> bool): string {
    if s != "" && p(s[0]) then TrimLeft(s[1..], p) else s
  }

  function TrimRight(s: string, p: char -> bool): string {
    if s != "" && p(s[|s| - 1]) then TrimRight(s[..|s| - 1], p) else s
  }

  function Strip(s: string, p: char -> bool): string {
    TrimRight(TrimLeft(s, p), p)
  }

  /** `s.split(";")`. */
  function Split(s: string): (parts: seq<string>)
    ensures |parts| >= 1
  {
    if s == "" then [""]
    else
      var rest := Split(s[1..]);
      if s[0] == ';' then [""] + rest else [[s[0]] + rest[0]] + rest[1..]
  }

  const KEY := "filename="

  predicate StartsWith(s: string, prefix: string) {
    |prefix| <= |s| && s[..|prefix|] == prefix
  }

  /** The value of a part that starts with the key, as both clients take it. */
  function ValueOf(part: string): string
    requires StartsWith(part, KEY)
  {
    Strip(Strip(part[|KEY|..], Quote), Space)
  }

  /** The first part that carries a name, None if there is none. */
  function FirstName(parts: seq<string>): Option<string> {
    if parts == [] then None
    else
      var part := Strip(parts[0], Space);
      if StartsWith(part, KEY) then Some(ValueOf(part)) else FirstName(parts[1..])
  }

  /** `_parse_content_disposition`: empty when no name is found. */
  function ParseDisposition(header: string): string {
    var name := FirstName(Split(header));
    if name.Some? then name.value else ""
  }

  /** The parsing in `download_transfer`: the transfer id when no name is found. */
  function ParseDownload(header: string, transferId: string): string {
    var name := FirstName(Split(header));
    if Contains(header, KEY) && name.Some? then name.value else transferId
  }

  function Header(name: string): string {
    "attachment; filename=\"" + name + "\""
  }

  /** The name is that of the first part that starts with the key. */
  lemma {:induction false} FirstNameIs(parts: seq<string>)
    ensures FirstName(parts) == None <==> forall i :: 0 <= i < |parts| ==> !StartsWith(Strip(parts[i], Space), KEY)
    ensures FirstName(parts).Some? ==>
      exists i :: 0 <= i < |parts| && StartsWith(Strip(parts[i], Space), KEY)
                  && FirstName(parts) == Some(ValueOf(Strip(parts[i], Space)))
                  && forall j :: 0 <= j < i ==> !StartsWith(Strip(parts[j], Space), KEY)
  {
    hide Strip, ValueOf;
    if parts != [] && !StartsWith(Strip(parts[0], Space), KEY) {
      var rest := parts[1..];
      FirstNameIs(rest);
      assert forall i :: 1 <= i < |parts| ==> parts[i] == rest[i - 1];
      if FirstName(parts).Some? {
        var i :| 0 <= i < |rest| && StartsWith(Strip(rest[i], Space), KEY)
          && FirstName(rest) == Some(ValueOf(Strip(rest[i], Space)))
          && forall j :: 0 <= j < i ==> !StartsWith(Strip(rest[j], Space), KEY);
        assert parts[i + 1] == rest[i];
      }
    }
  }

  /** A header without a name gives nothing to one client and the id to the other. */
  lemma NoNameGiven(header: string, transferId: string)
    requires FirstName(Split(header)) == None
    ensures ParseDisposition(header) == "" && ParseDownload(header, transferId) == transferId
  {}

  // ---- what the parsers make of the printed header ----

  lemma {:induction false} SplitPlain(s: string)
    requires ';' !in s
    ensures Split(s) == [s]
  {
    if s != "" {
      assert s[0] in s && forall c :: c in s[1..] ==> c in s;
      SplitPlain(s[1..]);
      assert [s[0]] + s[1..] == s;
    }
  }

  /** Splitting after the first semicolon. */
  lemma {:induction false} SplitFirst(a: string, b: string)
    requires ';' !in a
    ensures Split(a + ";" + b) == [a] + Split(b)
  {
    var s := a + ";" + b;
    if a == "" {
      assert s[1..] == b;
    } else {
      assert a[0] in a && forall c :: c in a[1..] ==> c in a;
      SplitFirst(a[1..], b);
      assert s[1..] == a[1..] + ";" + b;
      assert [a[0]] + a[1..] == a;
    }
  }

  lemma {:induction false} FirstSemicolon(s: string) returns (a: string, b: string)
    requires ';' in s
    ensures s == a + ";" + b && ';' !in a
  {
    if s[0] == ';' {
      a, b := "", s[1..];
    } else {
      assert ';' in s[1..];
      var c;
      c, b := FirstSemicolon(s[1..]);
      a := [s[0]] + c;
    }
  }

  lemma {:induction false} TrimLeftShort(s: string, p: char -> bool)
    ensures |TrimLeft(s, p)| <= |s|
    ensures TrimLeft(s, p) == s <==> s == "" || !p(s[0])
    ensures TrimLeft(s, p) == "" || !p(TrimLeft(s, p)[0])
    ensures forall c :: c in TrimLeft(s, p) ==> c in s
  {
    if s != "" && p(s[0]) {
      TrimLeftShort(s[1..], p);
    }
  }

  lemma {:induction false} TrimRightShort(s: string, p: char -> bool)
    ensures |TrimRight(s, p)| <= |s| && TrimRight(s, p) <= s
    ensures TrimRight(s, p) == s <==> s == "" || !p(s[|s| - 1])
  {
    if s != "" && p(s[|s| - 1]) {
      TrimRightShort(s[..|s| - 1], p);
    }
  }

  /** Stripping never lengthens, and changes exactly the strings that start or end
      with a stripped character. */
  lemma StripShort(s: string, p: char -> bool)
    ensures |Strip(s, p)| <= |s|
    ensures Strip(s, p) == s <==> s == "" || (!p(s[0]) && !p(s[|s| - 1]))
    ensures |Strip(s, p)| == |s| ==> Strip(s, p) == s
  {
    TrimLeftShort(s, p);
    TrimRightShort(TrimLeft(s, p), p);
    if |Strip(s, p)| == |s| {
      SameLength(s, p);
    }
  }

  lemma {:induction false} SameLength(s: string, p: char -> bool)
    requires |TrimLeft(s, p)| == |s|
    ensures TrimLeft(s, p) == s
  {
    if s != "" && p(s[0]) {
      TrimLeftShort(s[1..], p);
    }
  }

  lemma {:induction false} TrimRightQuote(s: string)
    ensures TrimRight(s + "\"", Quote) == TrimRight(s, Quote)
  {}

  /** The quotes around a name come off together with any of its own. */
  lemma {:induction false} UnquoteStrips(name: string)
    ensures Strip("\"" + name + "\"", Quote) == Strip(name, Quote)
  {
    var s := "\"" + name + "\"";
    assert s[1..] == name + "\"";
    LeadingQuotes(name);
    if TrimLeft(name, Quote) == "" {
      assert TrimLeft(name + "\"", Quote) == "";
    } else {
      TrimRightQuote(TrimLeft(name, Quote));
    }
  }

  lemma {:induction false} LeadingQuotes(name: string)
    ensures TrimLeft(name + "\"", Quote)
      == if TrimLeft(name, Quote) == "" then "" else TrimLeft(name, Quote) + "\""
  {
    if name != "" && Quote(name[0]) {
      assert (name + "\"")[1..] == name[1..] + "\"";
      LeadingQuotes(name[1..]);
    } else if name == "" {
      assert (name + "\"")[1..] == "";
    }
  }

  lemma {:induction false} TrimRightKeeps(x: string, y: string, p: char -> bool)
    requires x != "" && !p(x[|x| - 1])
    ensures x <= TrimRight(x + y, p)
    decreases |y|
  {
    var s := x + y;
    if y != "" && p(y[|y| - 1]) {
      assert s[..|s| - 1] == x + y[..|y| - 1];
      TrimRightKeeps(x, y[..|y| - 1], p);
    } else if y == "" {
      assert s == x;
    }
  }

  /** The part that carries the name, once trimmed: the key, then the quoted value
      less its trailing spaces. */
  lemma NamePart(tail: string)
    ensures var part := Strip(" " + KEY + "\"" + tail, Space);
      StartsWith(part, KEY) && part <= KEY + "\"" + tail
      && (tail != "" && !Space(tail[|tail| - 1]) ==> part == KEY + "\"" + tail)
  {
    var key := KEY + "\"";
    var s, t := " " + KEY + "\"" + tail, key + tail;
    assert s[1..] == t && t[0] == 'f';
    assert TrimLeft(t, Space) == t;
    TrimRightKeeps(key, tail, Space);
    TrimRightShort(t, Space);
    assert key <= Strip(s, Space) && key[..|KEY|] == KEY;
  }

  lemma NoNameInFirst()
    ensures FirstName(["attachment"]) == None && !StartsWith(Strip("attachment", Space), KEY)
  {}

  /** The first of the parts after the type is the one taken. */
  lemma TakesNamePart(tail: string, rest: seq<string>)
    ensures var part := Strip(" " + KEY + "\"" + tail, Space);
      StartsWith(part, KEY)
      && FirstName(["attachment", " " + KEY + "\"" + tail] + rest) == Some(ValueOf(part))
  {
    var part := " " + KEY + "\"" + tail;
    NamePart(tail);
    NoNameInFirst();
    assert (["attachment", part] + rest)[1..] == [part] + rest;
    hide Strip, ValueOf;
  }

  /** A name without a semicolon arrives stripped of outer quotes, then of spaces. */
  lemma PlainName(name: string)
    requires ';' !in name
    ensures FirstName(Split(Header(name))) == Some(Strip(Strip(name, Quote), Space))
  {
    hide Strip, Split, FirstName;
    var tail := name + "\"";
    var rest := " " + KEY + "\"" + tail;
    assert Header(name) == "attachment" + ";" + rest;
    SplitFirst("attachment", rest);
    SplitPlain(rest);
    assert ["attachment"] + [rest] == ["attachment", rest] + [];
    TakesNamePart(tail, []);
    NamePart(tail);
    assert (KEY + "\"" + tail)[|KEY|..] == "\"" + name + "\"";
    UnquoteStrips(name);
  }

  lemma StripMembers(s: string, p: char -> bool)
    ensures forall c :: c in Strip(s, p) ==> c in s
  {
    TrimLeftShort(s, p);
    var t := TrimLeft(s, p);
    TrimRightShort(t, p);
    assert forall i :: 0 <= i < |TrimRight(t, p)| ==> TrimRight(t, p)[i] == t[i];
  }

  /** A name with a semicolon is cut there. */
  lemma CutName(name: string)
    requires ';' in name
    ensures FirstName(Split(Header(name))).Some? && ';' !in FirstName(Split(Header(name))).value
  {
    var a, b := FirstSemicolon(name);
    var mine, theirs := " " + KEY + "\"" + a, b + "\"";
    assert Header(name) == "attachment" + ";" + (mine + ";" + theirs);
    SplitFirst("attachment", mine + ";" + theirs);
    SplitFirst(mine, theirs);
    assert ["attachment"] + ([mine] + Split(theirs)) == ["attachment", mine] + Split(theirs);
    TakesNamePart(a, Split(theirs));
    NamePart(a);
    var part := Strip(mine, Space);
    assert ';' !in KEY + "\"" + a;
    assert ';' !in part[|KEY|..];
    StripMembers(part[|KEY|..], Quote);
    StripMembers(Strip(part[|KEY|..], Quote), Space);
    hide Strip, Split, FirstName;
  }

  /** A name survives exactly when it has no semicolon and neither starts nor ends
      with a quote or a space. */
  lemma HeaderRoundTrip(name: string)
    ensures ParseDisposition(Header(name)) == name
      <==> ';' !in name && (name == "" || (!Quote(name[0]) && !Space(name[0])
                                           && !Quote(name[|name| - 1]) && !Space(name[|name| - 1])))
  {
    hide Strip, Split, FirstName, Header;
    if ';' in name {
      CutName(name);
    } else {
      PlainName(name);
      StripShort(name, Quote);
      StripShort(Strip(name, Quote), Space);
    }
  }

  /** Both clients read the same name. */
  lemma ParsersAgree(name: string, transferId: string)
    ensures ParseDownload(Header(name), transferId) == ParseDisposition(Header(name))
  {
    hide Split, FirstName;
    HeaderHasKey(name);
    if ';' in name {
      CutName(name);
    } else {
      PlainName(name);
    }
  }

  lemma HeaderHasKey(name: string)
    ensures Contains(Header(name), KEY)
  {
    ContainsAfter("attachment; ", KEY, "\"" + name + "\"");
    assert Header(name) == "attachment; " + KEY + ("\"" + name + "\"");
  }
}
