/** The clause explainer panel: the line classifier that renders an
    explanation (headings, breaks, paragraphs), the response template built
    from the three explanation fields, and the query handler's state steps. */
module ClauseInvestigator {
  import opened Types

  // ---------------------------------------------------------------------
  // String helpers with the JavaScript meaning

  /** `s.split(sep)`: the pieces between separators; n separators give n + 1 pieces. */
  function Split(s: string, sep: char): (r: seq<string>)
    ensures |r| >= 1
    ensures forall i :: 0 <= i < |r| ==> sep !in r[i]
  {
    if s == [] then [""]
    else
      var rest := Split(s[1..], sep);
      if s[0] == sep then [""] + rest
      else [[s[0]] + rest[0]] + rest[1..]
  }

  /** `pieces.join(sep)`. */
  function Join(pieces: seq<string>, sep: char): string
  {
    if pieces == [] then ""
    else if |pieces| == 1 then pieces[0]
    else pieces[0] + [sep] + Join(pieces[1..], sep)
  }

  /** Number of occurrences of `c` in `s`. */
  function Occurrences(s: string, c: char): nat
  {
    if s == [] then 0 else (if s[0] == c then 1 else 0) + Occurrences(s[1..], c)
  }

  /** Joining the pieces back with the separator gives the original text. */
  lemma {:induction false} SplitJoin(s: string, sep: char)
    ensures Join(Split(s, sep), sep) == s
  {
    if s != [] {
      var rest := Split(s[1..], sep);
      SplitJoin(s[1..], sep);
      if s[0] == sep {
        assert Split(s, sep) == [""] + rest;
        assert ([""] + rest)[1..] == rest;
      } else {
        var r := Split(s, sep);
        assert r == [[s[0]] + rest[0]] + rest[1..];
        if |rest| == 1 {
          assert Join(rest, sep) == rest[0];
        } else {
          assert Join(rest, sep) == rest[0] + [sep] + Join(rest[1..], sep);
          assert r[1..] == rest[1..];
        }
      }
    }
  }

  /** One piece per separator, plus one. */
  lemma {:induction false} SplitCount(s: string, sep: char)
    ensures |Split(s, sep)| == Occurrences(s, sep) + 1
  {
    if s != [] {
      SplitCount(s[1..], sep);
    }
  }

  /** Splitting at a separator between two texts splits each text on its own. */
  lemma {:induction false} SplitAppend(a: string, b: string, sep: char)
    ensures Split(a + [sep] + b, sep) == Split(a, sep) + Split(b, sep)
  {
    if a == [] {
      assert [] + [sep] + b == [sep] + b;
      SplitCons(sep, b, sep);
    } else {
      var t := a[1..] + [sep] + b;
      assert a + [sep] + b == [a[0]] + t;
      assert a == [a[0]] + a[1..];
      SplitAppend(a[1..], b, sep);
      SplitCons(a[0], t, sep);
      SplitCons(a[0], a[1..], sep);
      if a[0] != sep {
        PiecesAppend([a[0]], Split(a[1..], sep), Split(b, sep));
      }
    }
  }

  /** Splitting a text with a character in front. */
  lemma SplitCons(c: char, s: string, sep: char)
    ensures Split([c] + s, sep) ==
      if c == sep then [""] + Split(s, sep)
      else [[c] + Split(s, sep)[0]] + Split(s, sep)[1..]
  {
    assert ([c] + s)[0] == c && ([c] + s)[1..] == s;
  }

  /** Prefixing the first piece of a split commutes with appending more pieces. */
  lemma PiecesAppend(c: string, ra: seq<string>, rb: seq<string>)
    requires |ra| >= 1
    ensures [c + ra[0]] + ra[1..] + rb == [c + (ra + rb)[0]] + (ra + rb)[1..]
  {
    assert (ra + rb)[0] == ra[0];
    assert (ra + rb)[1..] == ra[1..] + rb;
  }

  lemma SplitNoSeparator(s: string, sep: char)
    requires sep !in s
    ensures Split(s, sep) == [s]
  {
    SplitCount(s, sep);
    SplitJoin(s, sep);
    OccurrencesZero(s, sep);
  }

  lemma {:induction false} OccurrencesZero(s: string, c: char)
    requires c !in s
    ensures Occurrences(s, c) == 0
  {
    if s != [] {
      OccurrencesZero(s[1..], c);
    }
  }

  /** `s.startsWith(p)` */
  predicate StartsWith(s: string, p: string)
  {
    |p| <= |s| && s[..|p|] == p
  }

  /** A text starts with `p` exactly when it is `p` followed by the rest of it. */
  lemma StartsWithPrefix(s: string, p: string)
    ensures StartsWith(s, p) <==> |p| <= |s| && s == p + s[|p|..]
    ensures StartsWith(p + s, p)
  {
    if |p| <= |s| && s == p + s[|p|..] {
      assert s[..|p|] == (p + s[|p|..])[..|p|];
    }
    assert (p + s)[..|p|] == p;
  }

  /** `s.replace(/pat/g, '')`: drops the leftmost non-overlapping occurrences of `pat`, scanning left to right. */
  function RemoveAll(s: string, pat: string): (r: string)
    requires |pat| > 0
    ensures |r| <= |s|
    decreases |s|
  {
    if s == [] then []
    else if StartsWith(s, pat) then RemoveAll(s[|pat|..], pat)
    else [s[0]] + RemoveAll(s[1..], pat)
  }

  /** Text in front that holds no character of the pattern's first kind is kept as it is. */
  lemma {:induction false} RemoveAllKeepsPrefix(s: string, t: string, pat: string)
    requires |pat| > 0 && pat[0] !in s
    ensures RemoveAll(s + t, pat) == s + RemoveAll(t, pat)
  {
    if s != [] {
      assert (s + t)[0] == s[0];
      assert !StartsWith(s + t, pat);
      assert (s + t)[1..] == s[1..] + t;
      RemoveAllKeepsPrefix(s[1..], t, pat);
      assert s + RemoveAll(t, pat) == [s[0]] + (s[1..] + RemoveAll(t, pat));
    } else {
      assert s + t == t;
    }
  }

  /** `text` contains no two adjacent asterisks. */
  predicate NoDoubleStar(text: string)
  {
    forall i :: 0 <= i < |text| - 1 ==> !(text[i] == '*' && text[i + 1] == '*')
  }

  /** After removing every "**" (the second replace of a heading) no "**" is left. */
  lemma {:induction false} RemoveDoubleStarComplete(s: string)
    ensures NoDoubleStar(RemoveAll(s, "**"))
    decreases |s|
  {
    if s != [] {
      if StartsWith(s, "**") {
        RemoveDoubleStarComplete(s[2..]);
      } else {
        RemoveDoubleStarComplete(s[1..]);
        var rest := RemoveAll(s[1..], "**");
        if s[0] == '*' && |s| > 1 {
          assert s[1] != '*' by { assert s[..2] != "**"; }
          assert !StartsWith(s[1..], "**");
          assert rest == [s[1]] + RemoveAll(s[2..], "**") by {
            assert s[1..][1..] == s[2..];
          }
        }
        var r := RemoveAll(s, "**");
        assert r == [s[0]] + rest;
        forall i | 0 <= i < |r| - 1 ensures !(r[i] == '*' && r[i + 1] == '*') {
          if i > 0 {
            assert r[i] == rest[i - 1] && r[i + 1] == rest[i];
          }
        }
      }
    }
  }

  /** The characters `String.prototype.trim` removes: white space and line terminators. */
  predicate IsWhitespace(c: char)
  {
    c == '\t' || c == '\n' || c == '\r' || c == ' ' ||
    c == '\U{000B}' || c == '\U{000C}' || c == '\U{00A0}' || c == '\U{1680}' ||
    ('\U{2000}' <= c <= '\U{200A}') ||
    c == '\U{2028}' || c == '\U{2029}' || c == '\U{202F}' || c == '\U{205F}' ||
    c == '\U{3000}' || c == '\U{FEFF}'
  }

  /** `s.trimStart()`: the text after its leading white space. */
  function TrimStart(s: string): (r: string)
    ensures |r| <= |s| && r == s[|s| - |r|..]
    ensures IsBlank(s[..|s| - |r|])
    ensures r != [] ==> !IsWhitespace(r[0])
  {
    if s != [] && IsWhitespace(s[0]) then
      var r := TrimStart(s[1..]);
      assert s[..|s| - |r|][1..] == s[1..][..|s| - 1 - |r|];
      r
    else s
  }

  /** `s.trimEnd()`: the text before its trailing white space. */
  function TrimEnd(s: string): (r: string)
    ensures |r| <= |s| && r == s[..|r|]
    ensures IsBlank(s[|r|..])
    ensures r != [] ==> !IsWhitespace(r[|r| - 1])
  {
    if s != [] && IsWhitespace(s[|s| - 1]) then
      var r := TrimEnd(s[..|s| - 1]);
      assert s[|r|..] == s[..|s| - 1][|r|..] + [s[|s| - 1]];
      assert [s[|s| - 1]][1..] == [];
      BlankAppend(s[..|s| - 1][|r|..], [s[|s| - 1]]);
      r
    else s
  }

  /** Trimming the end of what trimming the front leaves is a piece of the
      text starting where the front trim stopped. */
  lemma TrimEndOfTrimStart(s: string)
    ensures var t := TrimStart(s); var u := TrimEnd(t);
      |s| - |t| >= 0 && u <= s[|s| - |t|..] && (u != [] ==> u[0] == t[0])
    ensures var u := TrimEnd(TrimStart(s));
      u != [] ==> !IsWhitespace(u[0]) && !IsWhitespace(u[|u| - 1])
  {
    var t := TrimStart(s);
    var u := TrimEnd(t);
    if u != [] {
      assert u[0] == t[0];
    }
  }

  /** `r` is the piece of `s` starting at `k`, with only white space before and after it. */
  predicate BlankAround(s: string, k: int, r: string)
  {
    0 <= k <= |s| - |r| && IsBlank(s[..k]) && r == s[k..k + |r|] && IsBlank(s[k + |r|..])
  }

  /** What the two trims drop is white space on either side of what they keep. */
  lemma TrimDropsOnlyBlank(s: string)
    ensures BlankAround(s, |s| - |TrimStart(s)|, TrimEnd(TrimStart(s)))
  {
    BlankAroundPieces(s, TrimStart(s), TrimEnd(TrimStart(s)));
  }

  /** Cutting a blank front off `s` and then a blank back off the rest leaves
      a piece of `s` with only white space around it. */
  lemma BlankAroundPieces(s: string, t: string, u: string)
    requires |t| <= |s| && t == s[|s| - |t|..] && IsBlank(s[..|s| - |t|])
    requires |u| <= |t| && u == t[..|u|] && IsBlank(t[|u|..])
    ensures BlankAround(s, |s| - |t|, u)
  {
    var k := |s| - |t|;
    assert s[k..k + |u|] == u;
    assert s[k + |u|..] == t[|u|..];
  }

  /** `s.trim()`: the text with its leading and trailing white space removed;
      what is kept neither starts nor ends with white space. */
  function Trim(s: string): (r: string)
    ensures |r| <= |s|
    ensures BlankAround(s, |s| - |TrimStart(s)|, r)
    ensures r != [] ==> !IsWhitespace(r[0]) && !IsWhitespace(r[|r| - 1])
  {
    TrimEndOfTrimStart(s);
    TrimDropsOnlyBlank(s);
    TrimEnd(TrimStart(s))
  }

  /** Every character of `s` is white space (see `BlankEverywhere`). */
  predicate IsBlank(s: string)
  {
    s == [] || (IsWhitespace(s[0]) && IsBlank(s[1..]))
  }

  /** Blank means white space at every position. */
  lemma {:induction false} BlankEverywhere(s: string)
    ensures IsBlank(s) <==> forall i :: 0 <= i < |s| ==> IsWhitespace(s[i])
  {
    if s != [] {
      BlankEverywhere(s[1..]);
      assert forall i :: 1 <= i < |s| ==> s[i] == s[1..][i - 1];
    }
  }

  /** Two texts joined are blank exactly when both are. */
  lemma {:induction false} BlankAppend(a: string, b: string)
    ensures IsBlank(a + b) <==> IsBlank(a) && IsBlank(b)
    decreases |a|
  {
    if a == [] {
      assert a + b == b;
    } else {
      assert (a + b)[0] == a[0] && (a + b)[1..] == a[1..] + b;
      BlankAppend(a[1..], b);
    }
  }

  /** A line trims to nothing exactly when it is all white space. */
  lemma TrimEmptyIffBlank(s: string)
    ensures Trim(s) == "" <==> IsBlank(s)
  {
    TrimStartEmptyIffBlank(s);
    var t := TrimStart(s);
    if t != [] {
      assert TrimEnd(t) != [] by {
        TrimEndNonEmpty(t);
      }
    }
  }

  lemma {:induction false} TrimStartEmptyIffBlank(s: string)
    ensures TrimStart(s) == "" <==> IsBlank(s)
  {
    if s != [] {
      if IsWhitespace(s[0]) {
        TrimStartEmptyIffBlank(s[1..]);
      }
    }
  }

  lemma TrimEndNonEmpty(t: string)
    requires t != [] && !IsWhitespace(t[0])
    ensures TrimEnd(t) != []
    decreases |t|
  {
    if IsWhitespace(t[|t| - 1]) {
      TrimEndNonEmpty(t[..|t| - 1]);
    }
  }

  // ---------------------------------------------------------------------
  // The line classifier (`AiResponse`)

  const HeadingMarker: string := "### **"

  datatype Element = Heading(text: string) | LineBreak | Paragraph(text: string)

  /** One rendered line: a heading when it starts with the marker (checked
      first), a break when it trims to nothing, a paragraph otherwise. */
  function Classify(line: string): (e: Element)
    ensures e.Heading? <==> StartsWith(line, HeadingMarker)
    ensures e.LineBreak? <==> !StartsWith(line, HeadingMarker) && IsBlank(line)
    ensures e.Paragraph? ==> e.text == line
    ensures e.Heading? ==> NoDoubleStar(e.text) && |e.text| <= |line| - |HeadingMarker|
  {
    if StartsWith(line, HeadingMarker) then
      RemoveDoubleStarComplete(RemoveAll(line, HeadingMarker));
      Heading(RemoveAll(RemoveAll(line, HeadingMarker), "**"))
    else
      TrimEmptyIffBlank(line);
      if Trim(line) == "" then LineBreak else Paragraph(line)
  }

  /** The rendered elements of `content`, one per line. */
  function Parse(content: string): (r: seq<Element>)
    ensures |r| == Occurrences(content, '\n') + 1 == |Split(content, '\n')|
    ensures forall i :: 0 <= i < |r| ==> r[i] == Classify(Split(content, '\n')[i])
  {
    SplitCount(content, '\n');
    var lines := Split(content, '\n');
    seq(|lines|, i requires 0 <= i < |lines| => Classify(lines[i]))
  }

  /** Parsing distributes over a line break between two texts. */
  lemma ParseAppend(a: string, b: string)
    ensures Parse(a + "\n" + b) == Parse(a) + Parse(b)
  {
    SplitAppend(a, b, '\n');
    assert a + "\n" + b == a + ['\n'] + b;
    var la, lb := Split(a, '\n'), Split(b, '\n');
    var l := Split(a + "\n" + b, '\n');
    assert l == la + lb;
    var r, ra, rb := Parse(a + "\n" + b), Parse(a), Parse(b);
    assert |r| == |ra + rb|;
    forall i | 0 <= i < |r| ensures r[i] == (ra + rb)[i] {
      if i < |la| {
        assert l[i] == la[i];
      } else {
        assert l[i] == lb[i - |la|];
      }
    }
  }

  /** A marker line whose title holds no '*' or '#' becomes a heading with that title. */
  lemma HeadingLine(title: string)
    requires '*' !in title && '#' !in title
    ensures Classify(HeadingMarker + title + "**") == Heading(title)
  {
    var line := HeadingMarker + title + "**";
    assert StartsWith(line, HeadingMarker) by { assert line[..|HeadingMarker|] == HeadingMarker; }
    assert line[|HeadingMarker|..] == title + "**";
    assert RemoveAll(line, HeadingMarker) == RemoveAll(title + "**", HeadingMarker);
    RemoveAllKeepsPrefix(title, "**", HeadingMarker);
    RemoveAllKeepsPrefix("**", "", HeadingMarker);
    assert "**" + "" == "**";
    assert RemoveAll(title + "**", HeadingMarker) == title + "**";
    RemoveAllKeepsPrefix(title, "**", "**");
    assert RemoveAll("**", "**") == RemoveAll("", "**");
  }

  // ---------------------------------------------------------------------
  // The response template

  const Title1: string := "1. The Code, Simplified"
  const Title2: string := "2. Practical Application"
  const Title3: string := "3. Key Takeaway"

  /** The three heading lines of the template, "### **<title>**". */
  const Line1: string := HeadingMarker + Title1 + "**"
  const Line2: string := HeadingMarker + Title2 + "**"
  const Line3: string := HeadingMarker + Title3 + "**"

  /** The explanation the panel renders from the three fields of an answer. */
  function ResponseText(simplified: string, practical: string, takeaway: string): (r: string)
    ensures r != ""
  {
    Line1 + "\n" + simplified + "\n\n" +
    Line2 + "\n" + practical + "\n\n" +
    Line3 + "\n" + takeaway
  }

  /** A blank line between two texts renders as one break between them. */
  lemma ParseBlankLine(a: string, b: string)
    ensures Parse(a + "\n\n" + b) == Parse(a) + [LineBreak] + Parse(b)
  {
    assert a + "\n\n" + b == a + "\n" + ("" + "\n" + b);
    ParseAppend(a, "" + "\n" + b);
    ParseAppend("", b);
    ParseEmptyLine();
  }

  /** An empty line renders as a line break. */
  lemma ParseEmptyLine()
    ensures Parse("") == [LineBreak]
  {
    assert Split("", '\n') == [""];
    assert !StartsWith("", HeadingMarker) && IsBlank("");
    assert Classify("") == LineBreak;
  }

  /** A heading line of the template renders as one heading. */
  lemma ParseHeadingLine(title: string)
    requires '*' !in title && '#' !in title && '\n' !in title
    ensures Parse(HeadingMarker + title + "**") == [Heading(title)]
  {
    var h := HeadingMarker + title + "**";
    HeadingLine(title);
    assert '\n' !in h;
    SplitNoSeparator(h, '\n');
  }

  /** Each template heading line renders as its title's heading. */
  lemma TemplateLine1()
    ensures Parse(Line1) == [Heading(Title1)]
  {
    assert forall i :: 0 <= i < |Title1| ==> Title1[i] !in "*#\n";
    ParseHeadingLine(Title1);
  }

  lemma TemplateLine2()
    ensures Parse(Line2) == [Heading(Title2)]
  {
    assert forall i :: 0 <= i < |Title2| ==> Title2[i] !in "*#\n";
    ParseHeadingLine(Title2);
  }

  lemma TemplateLine3()
    ensures Parse(Line3) == [Heading(Title3)]
  {
    assert forall i :: 0 <= i < |Title3| ==> Title3[i] !in "*#\n";
    ParseHeadingLine(Title3);
  }

  /** Rendering the template: the three headings, with each field's own lines
      between them and a break before the second and third heading. */
  lemma ParseResponseText(simplified: string, practical: string, takeaway: string)
    ensures Parse(ResponseText(simplified, practical, takeaway)) ==
      [Heading(Title1)] + Parse(simplified) + [LineBreak] +
      [Heading(Title2)] + Parse(practical) + [LineBreak] +
      [Heading(Title3)] + Parse(takeaway)
  {
    TemplateLine1();
    TemplateLine2();
    TemplateLine3();
    var a1 := Line1 + "\n" + simplified;
    var a2 := a1 + "\n\n" + Line2;
    var a3 := a2 + "\n" + practical;
    var a4 := a3 + "\n\n" + Line3;
    assert ResponseText(simplified, practical, takeaway) == a4 + "\n" + takeaway;
    ParseAppend(Line1, simplified);
    ParseBlankLine(a1, Line2);
    ParseAppend(a2, practical);
    ParseBlankLine(a3, Line3);
    ParseAppend(a4, takeaway);
  }

  /** The heading texts of a rendered explanation, in order. */
  function Headings(elems: seq<Element>): (r: seq<string>)
    ensures |r| <= |elems|
  {
    if elems == [] then []
    else (if elems[0].Heading? then [elems[0].text] else []) + Headings(elems[1..])
  }

  lemma {:induction false} HeadingsAppend(a: seq<Element>, b: seq<Element>)
    ensures Headings(a + b) == Headings(a) + Headings(b)
  {
    if a != [] {
      assert (a + b)[1..] == a[1..] + b;
      HeadingsAppend(a[1..], b);
    } else {
      assert a + b == b;
    }
  }

  /** No line of `field` is a heading line. */
  predicate NoHeadingLines(field: string)
  {
    forall i :: 0 <= i < |Split(field, '\n')| ==> !StartsWith(Split(field, '\n')[i], HeadingMarker)
  }

  lemma {:induction false} HeadingsNone(elems: seq<Element>)
    requires forall i :: 0 <= i < |elems| ==> !elems[i].Heading?
    ensures Headings(elems) == []
  {
    if elems != [] {
      HeadingsNone(elems[1..]);
    }
  }

  /** When no field line starts with the marker, the rendered explanation has
      exactly the three section headings, in order. */
  lemma ResponseHeadings(simplified: string, practical: string, takeaway: string)
    requires NoHeadingLines(simplified) && NoHeadingLines(practical) && NoHeadingLines(takeaway)
    ensures Headings(Parse(ResponseText(simplified, practical, takeaway))) == [Title1, Title2, Title3]
  {
    ParseResponseText(simplified, practical, takeaway);
    FieldHasNoHeadings(simplified);
    FieldHasNoHeadings(practical);
    FieldHasNoHeadings(takeaway);
    SectionHeadings(Title1, Title2, Title3, Parse(simplified), Parse(practical), Parse(takeaway));
  }

  /** A field without heading lines renders without headings. */
  lemma FieldHasNoHeadings(field: string)
    requires NoHeadingLines(field)
    ensures Headings(Parse(field)) == []
  {
    var p := Parse(field);
    forall i | 0 <= i < |p| ensures !p[i].Heading? {
      assert p[i] == Classify(Split(field, '\n')[i]);
    }
    HeadingsNone(p);
  }

  /** Headings of three sections whose bodies hold none. */
  lemma SectionHeadings(t1: string, t2: string, t3: string, ps: seq<Element>, pp: seq<Element>, pt: seq<Element>)
    requires Headings(ps) == [] && Headings(pp) == [] && Headings(pt) == []
    ensures Headings([Heading(t1)] + ps + [LineBreak] + [Heading(t2)] + pp + [LineBreak] + [Heading(t3)] + pt)
            == [t1, t2, t3]
  {
    var e1 := [Heading(t1)] + ps;
    var e2 := e1 + [LineBreak];
    var e3 := e2 + [Heading(t2)];
    var e4 := e3 + pp;
    var e5 := e4 + [LineBreak];
    var e6 := e5 + [Heading(t3)];
    SingleHeadings(t1);
    SingleHeadings(t2);
    SingleHeadings(t3);
    assert Headings([LineBreak]) == [];
    HeadingsAppend([Heading(t1)], ps);
    assert Headings(e1) == [t1];
    HeadingsAppend(e1, [LineBreak]);
    assert Headings(e2) == [t1];
    HeadingsAppend(e2, [Heading(t2)]);
    assert Headings(e3) == [t1, t2];
    HeadingsAppend(e3, pp);
    HeadingsAppend(e4, [LineBreak]);
    assert Headings(e5) == [t1, t2];
    HeadingsAppend(e5, [Heading(t3)]);
    assert Headings(e6) == [t1, t2, t3];
    HeadingsAppend(e6, pt);
  }

  lemma SingleHeadings(title: string)
    ensures Headings([Heading(title)]) == [title]
  {
    assert [Heading(title)][1..] == [];
  }

  // ---------------------------------------------------------------------
  // The query handler (`handleQuery`)

  /** How the remote explanation call ended: an explanation with its three
      fields, or a failure carrying the error's message when it had one. */
  datatype ExplainOutcome = Explained(simplified: string, practical: string, takeaway: string)
                          | Failed(message: Option<string>)

  const UnknownError: string := "An unknown error occurred."

  const ExampleQueries: seq<string> := [
    "AWS D1.1 clause 6.9 for visual inspection",
    "Difference between PQR and WPS",
    "What is undercut in welding?"
  ]

  class Investigator {
    var query: string
    var isLoading: bool
    var response: string
    var error: string

    constructor ()
      ensures query == "" && !isLoading && response == "" && error == ""
    {
      query := "";
      isLoading := false;
      response := "";
      error := "";
    }

    /** The Explain button is enabled when nothing is loading and the query is non-empty. */
    predicate SubmitEnabled()
      reads this
    {
      !isLoading && query != ""
    }

    method SetQuery(q: string)
      modifies this
      ensures query == q
      ensures isLoading == old(isLoading) && response == old(response) && error == old(error)
    {
      query := q;
    }

    /** First half of `handleQuery`: an empty query does nothing; otherwise
        loading starts and the previous error and response are cleared. */
    method BeginQuery(queryString: string) returns (started: bool)
      modifies this
      ensures started <==> queryString != ""
      ensures !started ==>
        query == old(query) && isLoading == old(isLoading) && response == old(response) && error == old(error)
      ensures started ==> isLoading && error == "" && response == "" && query == old(query)
    {
      if queryString == "" {
        return false;
      }
      isLoading := true;
      error := "";
      response := "";
      started := true;
    }

    /** Second half of `handleQuery`: the explanation is rendered into the
        response, or the failure's message becomes the error; loading ends. */
    method FinishQuery(outcome: ExplainOutcome)
      modifies this
      ensures !isLoading && query == old(query)
      ensures outcome.Explained? ==>
        response == ResponseText(outcome.simplified, outcome.practical, outcome.takeaway) && error == old(error)
      ensures outcome.Failed? ==>
        response == old(response) &&
        error == (if outcome.message.Some? then outcome.message.value else UnknownError)
    {
      match outcome {
        case Explained(s, p, t) =>
          response := ResponseText(s, p, t);
        case Failed(m) =>
          error := if m.Some? then m.value else UnknownError;
      }
      isLoading := false;
    }

    /** `handleQuery` as a whole, with the remote call's outcome as a parameter. */
    method HandleQuery(queryString: string, outcome: ExplainOutcome)
      modifies this
      ensures queryString == "" ==>
        query == old(query) && isLoading == old(isLoading) && response == old(response) && error == old(error)
      ensures queryString != "" ==> !isLoading && query == old(query)
      ensures queryString != "" && outcome.Explained? ==>
        error == "" && response == ResponseText(outcome.simplified, outcome.practical, outcome.takeaway)
      ensures queryString != "" && outcome.Failed? ==>
        response == "" &&
        error == (if outcome.message.Some? then outcome.message.value else UnknownError)
    {
      var started := BeginQuery(queryString);
      if started {
        FinishQuery(outcome);
      }
    }

    /** The form's submit: asks about the typed query. */
    method HandleSubmit(outcome: ExplainOutcome)
      modifies this
      ensures old(query) == "" ==>
        query == old(query) && isLoading == old(isLoading) && response == old(response) && error == old(error)
      ensures old(query) != "" ==> !isLoading && query == old(query)
      ensures old(query) != "" ==> SubmitEnabled()
      ensures old(query) != "" && outcome.Explained? ==>
        error == "" && response == ResponseText(outcome.simplified, outcome.practical, outcome.takeaway)
      ensures old(query) != "" && outcome.Failed? ==>
        response == "" &&
        error == (if outcome.message.Some? then outcome.message.value else UnknownError)
    {
      HandleQuery(query, outcome);
    }

    /** An example button: fills in the example and asks about it at once. */
    method AskExample(k: int, outcome: ExplainOutcome)
      requires 0 <= k < |ExampleQueries|
      modifies this
      ensures query == ExampleQueries[k] && !isLoading
      ensures SubmitEnabled()
      ensures outcome.Explained? ==>
        error == "" && response == ResponseText(outcome.simplified, outcome.practical, outcome.takeaway)
      ensures outcome.Failed? ==>
        response == "" &&
        error == (if outcome.message.Some? then outcome.message.value else UnknownError)
    {
      SetQuery(ExampleQueries[k]);
      HandleQuery(ExampleQueries[k], outcome);
    }
  }

  /** Two example buttons clicked one after the other, the second call
      answering first. The example buttons are never disabled, so the second
      query starts while the first is in flight: the first answer to arrive
      turns the spinner off while the other call is still out, and the last
      one overwrites the response, leaving the first example's explanation
      under the second example's query. */
  method ScenarioOverlappingExamples(a: ExplainOutcome, b: ExplainOutcome)
    returns (loadingBetween: bool, q: string, shown: string, loading: bool)
    requires a.Explained? && b.Explained?
    ensures !loadingBetween
    ensures q == ExampleQueries[1] && !loading
    ensures shown == ResponseText(a.simplified, a.practical, a.takeaway)
  {
    var panel := new Investigator();
    panel.SetQuery(ExampleQueries[0]);
    var first := panel.BeginQuery(ExampleQueries[0]);
    panel.SetQuery(ExampleQueries[1]);
    var second := panel.BeginQuery(ExampleQueries[1]);
    panel.FinishQuery(b);
    loadingBetween := panel.isLoading;
    panel.FinishQuery(a);
    q, shown, loading := panel.query, panel.response, panel.isLoading;
  }
}
