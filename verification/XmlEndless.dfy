// When the parser does not come to an end: the last character of the input is read again and again.
module XmlEndless {
  import opened Basics
  import opened XmlText
  import opened XmlTree

  // Either empty, or ending in white space.
  predicate EndsBlank(p: string) {
    p == "" || IsWhiteSpace(p[|p| - 1])
  }

  // --- A text that runs into the end of the input ---

  lemma LastOfChar(p: string)
    requires p != "" && p[0] != '<'
    ensures var c := GetChar(p); c.Some? && c.value.1 == "" ==> p[|p| - 1] != '<'
  {
    hide Number, Semicolon;
    if p[0] == '&' {
      if |p| > 2 && p[1] == '#' {
        var start := if p[2] == 'x' then 3 else 2;
        if start < |p| && Semicolon(p[start..]).Some? {
          var k := Semicolon(p[start..]).value;
          assert p[start..][k] == p[start + k];
        }
      } else {
        assert StartsWith(p, "&amp;") ==> p[..5][4] == p[4] && "&amp;"[4] == ';';
        assert StartsWith(p, "&lt;") ==> p[..4][3] == p[3] && "&lt;"[3] == ';';
        assert StartsWith(p, "&gt;") ==> p[..4][3] == p[3] && "&gt;"[3] == ';';
        assert StartsWith(p, "&quot;") ==> p[..6][5] == p[5] && "&quot;"[5] == ';';
        assert StartsWith(p, "&apos;") ==> p[..6][5] == p[5] && "&apos;"[5] == ';';
      }
    }
  }

  lemma {:induction false} LastOfText(p: string, space: bool)
    requires p != "" && Condensed(p, space).Some? && Condensed(p, space).value.1 == ""
    ensures p[|p| - 1] != '<'
    decreases |p|
  {
    hide GetChar, IsWhiteSpace;
    if IsWhiteSpace(p[0]) {
      if |p| > 1 { LastOfText(p[1..], true); }
    } else {
      LastOfChar(p);
      CharLeft(p);
      var q := GetChar(p).value.1;
      if q != "" { LastOfText(q, false); }
    }
  }

  lemma OneLetter(p: string)
    requires |p| == 1 && p[0] != '<' && !IsWhiteSpace(p[0])
    ensures var r := Condensed(p, false); r.Some? && r.value.1 == ""
  {
  }

  // A text that runs into the end of the input is never done with if and only if it does not end in white space.
  lemma TextAtEnd(p: string, before: seq<XmlNode>)
    requires p != "" && p[0] != '<' && !IsWhiteSpace(p[0]) && Condensed(p, false).Some? && Condensed(p, false).value.1 == ""
    ensures p[|p| - 1] != '<' && (ReadNodes(p, before) == Endless <==> !IsWhiteSpace(p[|p| - 1]))
  {
    hide IsWhiteSpace, Condensed, ReadNodes, ReadValue, Blank;
    LastOfText(p, false);
    var v, q := Condensed(p, false).value.0, p[|p| - 1..];
    var cs := if Blank(v) then before else before + [Text(v)];
    RunsOut(p, v, before);
    assert q[0] == p[|p| - 1];
    if |p| > 1 {
      if IsWhiteSpace(q[0]) {
        NothingAfter(q, cs);
      } else {
        OneLetter(q);
        RunsOut(q, Condensed(q, false).value.0, cs);
        Unskipped(q, cs);
      }
    }
  }

  // One turn of the loop for such a text.
  lemma RunsOut(p: string, v: string, before: seq<XmlNode>)
    requires p != "" && p[0] != '<' && !IsWhiteSpace(p[0]) && Condensed(p, false) == Some((v, ""))
    ensures ReadNodes(p, before) ==
            if |p| == 1 then Endless else ReadValue(p[|p| - 1..], if Blank(v) then before else before + [Text(v)])
  {
    hide IsWhiteSpace, Condensed, ReadValue;
  }

  lemma Unskipped(p: string, before: seq<XmlNode>)
    requires p != "" && !IsWhiteSpace(p[0])
    ensures ReadValue(p, before) == ReadNodes(p, before)
  {
    hide ReadNodes, IsWhiteSpace;
  }

  lemma NothingAfter(p: string, before: seq<XmlNode>)
    requires |p| == 1 && IsWhiteSpace(p[0])
    ensures ReadValue(p, before) == Failed
  {
    assert p[1..] == "";
  }

  // Any text without a tag, and nothing after it: the parser is never done with it if and only if it can be read and does not
  // end in white space.
  lemma TextWithoutTag(p: string, before: seq<XmlNode>)
    requires p != "" && !IsWhiteSpace(p[0]) && '<' !in p
    ensures ReadValue(p, before) == Endless <==> Condensed(p, false).Some? && !IsWhiteSpace(p[|p| - 1])
  {
    hide IsWhiteSpace, Condensed, ReadNodes, ReadValue;
    Unskipped(p, before);
    var r := Condensed(p, false);
    if r.Some? {
      SuffixLeft(p, false);
      HeadIn(p, r.value.1);
      TextAtEnd(p, before);
    } else {
      Unreadable(p, before);
    }
  }

  lemma HeadIn(p: string, q: string)
    requires |q| <= |p| && q == p[|p| - |q|..]
    ensures q != "" ==> q[0] in p
  {
    if q != "" { assert q[0] == p[|p| - |q|]; }
  }

  lemma Unreadable(p: string, before: seq<XmlNode>)
    requires p != "" && p[0] != '<' && !IsWhiteSpace(p[0]) && Condensed(p, false) == None
    ensures ReadNodes(p, before) == Failed
  {
    hide IsWhiteSpace, Condensed;
  }

  // A document that the parser is never done with.
  lemma EndlessDocument()
    ensures ParseDocument("<a>b", []) == Endless
  {
    hide ParseDocument, ParseTag, ReadValue;
    var p, q := "<a>b", ">b";
    EndlessValue();
    assert q[1..] == "b";
    EndlessTag(q, "a");
    assert p[1..] == ['a'] + q;
    NameOfOne('a', q);
    EndlessElement(p, "a", q);
    EndlessRoot(p);
  }

  lemma NameOfOne(c: char, q: string)
    requires IsNameStart(c) && IsNameChar(c) && (q == "" || !IsNameChar(q[0]))
    ensures ReadName([c] + q) == Some(([c], q))
  {
    LegalNameRead([c], q);
  }

  lemma EndlessElement(p: string, name: string, q: string)
    requires |p| > 1 && p[0] == '<' && IsNameStart(p[1]) && ReadName(p[1..]) == Some((name, q)) && q != "" && ParseTag(q, name, []) == Endless
    ensures ParseElement(p) == Endless
  {
    hide ParseTag, ReadName, SkipWhiteSpace;
    NothingSkipped(p);
    NothingSkipped(p[1..]);
  }

  lemma EndlessRoot(p: string)
    requires |p| > 1 && p[0] == '<' && IsNameStart(p[1]) && ParseElement(p) == Endless
    ensures ParseDocument(p, []) == Endless
  {
    hide ParseElement, SkipWhiteSpace, IsNameStart;
    NothingSkipped(p);
  }

  lemma EndlessTag(p: string, name: string)
    requires p != "" && p[0] == '>' && ReadValue(p[1..], []) == Endless
    ensures ParseTag(p, name, []) == Endless
  {
    hide ReadValue;
  }

  lemma EndlessValue()
    ensures ReadValue("b", []) == Endless
  {
    hide ReadNodes, Condensed;
    OneLetter("b");
    TextAtEnd("b", []);
    Unskipped("b", []);
  }

  // --- An input that ends in white space is always done with ---

  lemma EndOfBlank(p: string, q: string)
    requires EndsBlank(p) && |q| <= |p| && q == p[|p| - |q|..]
    ensures EndsBlank(q)
  {
    hide IsWhiteSpace;
    if q != "" { assert q[|q| - 1] == p[|p| - 1]; }
  }

  lemma NameBlank(p: string)
    requires EndsBlank(p)
    ensures var r := ReadName(p); r.Some? ==> EndsBlank(r.value.1)
  {
    hide IsWhiteSpace, IsNameStart, IsNameChar, EndsBlank;
    EndOfBlank(p, p[NameLength(p)..]);
  }

  lemma {:induction false} KeptBlank(p: string, end: char)
    requires EndsBlank(p)
    ensures var r := Kept(p, end); r.Some? ==> EndsBlank(r.value.1)
    decreases |p|
  {
    hide IsWhiteSpace, GetChar, EndsBlank;
    if p == "" {
    } else if p[0] == end {
      EndOfBlank(p, p[1..]);
    } else {
      var c := GetChar(p);
      if c.Some? {
        CharLeft(p);
        EndOfBlank(p, c.value.1);
        KeptBlank(c.value.1, end);
      }
    }
  }

  lemma {:induction false} UnquotedBlank(p: string)
    requires EndsBlank(p)
    ensures var r := Unquoted(p); r.Some? ==> EndsBlank(r.value.1)
  {
    hide IsWhiteSpace, EndsBlank;
    if p != "" {
      EndOfBlank(p, p[1..]);
      UnquotedBlank(p[1..]);
    }
  }

  lemma SkipBlank(p: string)
    requires EndsBlank(p)
    ensures EndsBlank(SkipWhiteSpace(p))
  {
    EndOfBlank(p, SkipWhiteSpace(p));
  }

  lemma AttributeBlank(p: string)
    requires EndsBlank(p)
    ensures var r := ParseAttribute(p); r.Some? ==> EndsBlank(r.value.1)
  {
    hide EndsBlank, SkipWhiteSpace, ReadName, ParseValue;
    SkipBlank(p);
    NameBlank(SkipWhiteSpace(p));
    var n := ReadName(SkipWhiteSpace(p));
    if n.Some? {
      SkipBlank(n.value.1);
      var e := SkipWhiteSpace(n.value.1);
      if e != "" {
        EndOfBlank(e, e[1..]);
        SkipBlank(e[1..]);
        ValueBlank(SkipWhiteSpace(e[1..]));
      }
    }
  }

  lemma ValueBlank(p: string)
    requires EndsBlank(p)
    ensures var r := ParseValue(p); r.Some? ==> EndsBlank(r.value.1)
  {
    hide EndsBlank, Kept, Unquoted;
    if p != "" {
      EndOfBlank(p, p[1..]);
      KeptBlank(p[1..], p[0]);
      UnquotedBlank(p);
    }
  }

  // Not endless, and what is left ends in white space again.
  ghost predicate Over<T>(r: Outcome<T>) {
    !r.Endless? && (r.Done? ==> EndsBlank(r.rest))
  }

  lemma {:induction false} TextBlank(p: string, space: bool)
    requires EndsBlank(p)
    ensures var r := Condensed(p, space); r.Some? ==> EndsBlank(r.value.1)
    decreases |p|
  {
    hide IsWhiteSpace, GetChar, EndsBlank;
    if p != "" && p[0] != '<' {
      if IsWhiteSpace(p[0]) {
        EndOfBlank(p, p[1..]);
        TextBlank(p[1..], true);
      } else {
        var c := GetChar(p);
        if c.Some? {
          CharLeft(p);
          EndOfBlank(p, c.value.1);
          TextBlank(c.value.1, false);
        }
      }
    }
  }

  lemma ParseTextBlank(p: string)
    requires p != "" && p[0] != '<' && !IsWhiteSpace(p[0]) && EndsBlank(p)
    ensures var r := ParseText(p); r.Some? ==> EndsBlank(r.value.1) && |r.value.1| < |p|
  {
    hide Condensed;
    TextBlank(p, false);
    EndOfBlank(p, p[|p| - 1..]);
  }

  lemma {:induction false} ElementOver(p: string)
    requires EndsBlank(p)
    ensures Over(ParseElement(p))
    decreases |p|, 0
  {
    hide ParseTag, ReadName, EndsBlank, SkipWhiteSpace;
    SkipBlank(p);
    var q := SkipWhiteSpace(p);
    if q != "" {
      EndOfBlank(q, q[1..]);
      SkipBlank(q[1..]);
      NameBlank(SkipWhiteSpace(q[1..]));
      var n := ReadName(SkipWhiteSpace(q[1..]));
      if n.Some? { TagOver(n.value.1, n.value.0, []); }
    }
  }

  lemma {:induction false} TagOver(p: string, name: string, attributes: seq<Attribute>)
    requires EndsBlank(p)
    ensures Over(ParseTag(p, name, attributes))
    decreases |p|, 0
  {
    hide ReadValue, ParseAttribute, EndsBlank, SkipWhiteSpace, HasName, Closed;
    SkipBlank(p);
    var q := SkipWhiteSpace(p);
    if q != "" {
      if q[0] == '/' {
        if |q| > 1 { EndOfBlank(q, q[2..]); }
      } else if q[0] == '>' {
        EndOfBlank(q, q[1..]);
        ValueOver(q[1..], []);
        ClosedOver(ReadValue(q[1..], []), name, attributes);
      } else {
        AttributeBlank(q);
        var a := ParseAttribute(q);
        if a.Some? { TagOver(a.value.1, name, attributes + [a.value.0]); }
      }
    }
  }

  lemma ClosedOver(v: Outcome<seq<XmlNode>>, name: string, attributes: seq<Attribute>)
    requires Over(v)
    ensures Over(Closed(v, name, attributes))
  {
    hide EndsBlank, SkipWhiteSpace;
    if v.Done? && StartsWith(v.rest, "</" + name) {
      EndOfBlank(v.rest, v.rest[2 + |name|..]);
      SkipBlank(v.rest[2 + |name|..]);
      var e := SkipWhiteSpace(v.rest[2 + |name|..]);
      if e != "" { EndOfBlank(e, e[1..]); }
    }
  }

  lemma {:induction false} ValueOver(p: string, children: seq<XmlNode>)
    requires EndsBlank(p)
    ensures Over(ReadValue(p, children))
    decreases |p|, 2
  {
    hide EndsBlank, SkipWhiteSpace, ReadNodes;
    SkipBlank(p);
    NodesOver(SkipWhiteSpace(p), children);
  }

  lemma {:induction false} NodesOver(p: string, children: seq<XmlNode>)
    requires EndsBlank(p) && (p == "" || !IsWhiteSpace(p[0]))
    ensures Over(ReadNodes(p, children))
    decreases |p|, 1
  {
    hide EndsBlank, ReadValue, ParseElement, ParseText, Blank, StartsWith, IsNameStart, IsWhiteSpace;
    if p != "" {
      if p[0] != '<' {
        ParseTextBlank(p);
        var t := ParseText(p);
        if t.Some? { ValueOver(t.value.1, if Blank(t.value.0) then children else children + [Text(t.value.0)]); }
      } else {
        ElementOver(p);
        var e := ParseElement(p);
        if e.Done? { ValueOver(e.rest, children + [e.value]); }
      }
    }
  }

  // Whatever a document is like: if it ends in white space, the parser comes to an end.
  lemma {:induction false} DocumentOver(p: string, children: seq<XmlNode>)
    requires EndsBlank(p)
    ensures Over(ParseDocument(p, children))
    decreases |p|
  {
    hide EndsBlank, SkipWhiteSpace, ParseElement, IsNameStart;
    SkipBlank(p);
    var q := SkipWhiteSpace(p);
    ElementOver(q);
    var e := ParseElement(q);
    if e.Done? { DocumentOver(e.rest, children + [e.value]); }
  }
}
