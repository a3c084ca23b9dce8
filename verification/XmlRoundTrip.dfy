// Printing a tree and parsing it again.
module XmlRoundTrip {
  import opened Basics
  import opened XmlSurvival
  import opened XmlText
  import opened XmlTree

  predicate LegalAttributes(attributes: seq<Attribute>) {
    Named(attributes) && forall i | 0 <= i < |attributes| :: NoReference(attributes[i].value)
  }

  predicate Siblings(ns: seq<XmlNode>) {
    Spread(ns) && forall i | 0 <= i < |ns| :: Legal(ns[i])
  }

  lemma Parts(n: XmlNode)
    requires n.Element? && Legal(n)
    ensures LegalName(n.name) && LegalAttributes(n.attributes) && Siblings(n.children)
  {
    hide NoReference, Named, LegalName, Spread;
  }

  lemma {:induction false} IndentBlank(l: Layout, depth: nat)
    requires Spacing(l)
    ensures Blank(Indent(l, depth))
  {
    if depth > 0 { IndentBlank(l, depth - 1); }
  }

  lemma ReadValueSkips(ws: string, p: string, children: seq<XmlNode>)
    requires Blank(ws)
    ensures ReadValue(ws + p, children) == ReadValue(p, children)
  {
    hide ReadNodes, SkipWhiteSpace, Blank;
    assert SkipWhiteSpace(ws + p) == SkipWhiteSpace(p) by { BlankSkipped(ws, p); }
  }

  lemma BlankSkipped(ws: string, p: string)
    requires Blank(ws)
    ensures SkipWhiteSpace(ws + p) == SkipWhiteSpace(p)
  {
    SkipSpaces(ws, p);
  }

  // A name in front of anything that is no part of it.
  lemma NameStarts(n: string, p: string)
    requires LegalName(n) && (p == "" || !IsNameChar(p[0]))
    ensures SkipWhiteSpace(n + p) == n + p && ReadName(n + p) == Some((n, p))
  {
    LegalNameRead(n, p);
    assert (n + p)[0] == n[0];
  }

  lemma QuotedRead(v: string, quote: char, p: string)
    requires quote == '\'' || quote == '\"'
    ensures var r := [quote] + Encode(v) + [quote] + p; SkipWhiteSpace(r) == r && ParseValue(r) == Kept(Encode(v) + [quote] + p, quote)
  {
    hide Kept, Encode, SkipWhiteSpace;
    var r := [quote] + Encode(v) + [quote] + p;
    NothingSkipped(r);
    assert r[1..] == Encode(v) + [quote] + p;
  }

  lemma LegalNameWritten(n: string)
    requires LegalName(n)
    ensures n != "" && Encode(n) == n
  {
    NameWritten(n);
  }

  function Quote(a: Attribute): char {
    if '\"' in a.value then '\'' else '\"'
  }

  // What is made of a printed attribute hangs on its value.
  lemma AttributeParsed(a: Attribute, p: string)
    requires LegalName(a.name)
    ensures var r, v := PrintAttribute(a) + p, Kept(Encode(a.value) + [Quote(a)] + p, Quote(a));
            && r != "" && r[0] == a.name[0]
            && ParseAttribute(r) == match v case None => None case Some(x) => Some((Attribute(a.name, x.0), x.1))
  {
    hide Encode, ReadName, LegalName, IsNameStart, IsNameChar, IsWhiteSpace, SkipWhiteSpace, ParseValue, Kept;
    Delimiters();
    var value := [Quote(a)] + Encode(a.value) + [Quote(a)] + p;
    LegalNameWritten(a.name);
    assert PrintAttribute(a) + p == a.name + ("=" + value);
    NameStarts(a.name, "=" + value);
    NothingSkipped("=" + value);
    assert ("=" + value)[1..] == value;
    QuotedRead(a.value, Quote(a), p);
  }

  lemma AttributeRead(a: Attribute, p: string)
    requires LegalName(a.name) && NoReference(a.value)
    ensures var r := PrintAttribute(a) + p; r != "" && r[0] == a.name[0] && ParseAttribute(r) == Some((a, p))
  {
    hide Encode, LegalName, NoReference, Kept, PrintAttribute, ParseAttribute;
    AttributeParsed(a, p);
    KeptRead(a.value, Quote(a), p);
  }

  // An attribute survives printing and parsing if and only if no hexadecimal reference begins in its value.
  lemma AttributeSurvives(a: Attribute, p: string)
    requires LegalName(a.name)
    ensures ParseAttribute(PrintAttribute(a) + p) == Some((a, p)) <==> NoReference(a.value)
  {
    hide Encode, LegalName, NoReference, Kept, PrintAttribute, ParseAttribute;
    AttributeParsed(a, p);
    ValueSurvives(a.value, Quote(a), p);
  }

  // A value without quotes is read up to white space or the end of the tag.
  lemma {:induction false} UnquotedRead(v: string, p: string)
    requires forall i | 0 <= i < |v| :: !IsWhiteSpace(v[i]) && v[i] != '/' && v[i] != '>' && v[i] != '\'' && v[i] != '\"'
    requires p == "" || IsWhiteSpace(p[0]) || p[0] == '/' || p[0] == '>'
    ensures Unquoted(v + p) == Some((v, p))
  {
    hide IsWhiteSpace;
    if v == "" {
      assert v + p == p;
    } else {
      assert (v + p)[1..] == v[1..] + p;
      UnquotedRead(v[1..], p);
      assert v == [v[0]] + v[1..];
    }
  }

  // Neither part of a name nor white space.
  lemma Delimiters()
    ensures !IsNameChar('=') && !IsNameChar(' ') && !IsNameChar('>') && !IsNameChar('/') && !IsNameStart('/') && !IsNameStart('>')
    ensures !IsWhiteSpace('=') && !IsWhiteSpace('\'') && !IsWhiteSpace('\"') && !IsWhiteSpace('<') && !IsWhiteSpace('>') && !IsWhiteSpace('/')
    ensures IsWhiteSpace(' ')
  {
  }

  // The attributes that are still to come are read one after the other.
  lemma {:induction false} TagRead(name: string, before: seq<Attribute>, attributes: seq<Attribute>, p: string)
    requires LegalAttributes(before + attributes) && p != ""
    ensures ParseTag(PrintAttributes(attributes) + p, name, before) == ParseTag(p, name, before + attributes)
    decreases |attributes|
  {
    hide PrintAttribute, ParseTag, LegalAttributes, HasName, LegalName, NoReference;
    if attributes == [] {
      assert PrintAttributes(attributes) + p == p && before + attributes == before;
    } else {
      var a := attributes[0];
      var rest := PrintAttributes(attributes[1..]) + p;
      FirstAttribute(before, attributes);
      assert PrintAttributes(attributes) + p == " " + (PrintAttribute(a) + rest);
      OneAttributeRead(name, before, a, rest);
      TagRead(name, before + [a], attributes[1..], p);
    }
  }

  lemma FirstAttribute(before: seq<Attribute>, attributes: seq<Attribute>)
    requires LegalAttributes(before + attributes) && attributes != []
    ensures before + attributes == before + [attributes[0]] + attributes[1..]
    ensures var a := attributes[0]; LegalName(a.name) && NoReference(a.value) && !HasName(before, a.name)
  {
    hide LegalName, NoReference;
    var a := attributes[0];
    assert (before + attributes)[|before|] == a;
    forall i | 0 <= i < |before| ensures before[i].name != a.name { assert (before + attributes)[i] == before[i]; }
  }

  lemma OneAttributeRead(name: string, before: seq<Attribute>, a: Attribute, p: string)
    requires LegalName(a.name) && NoReference(a.value) && !HasName(before, a.name) && p != ""
    ensures ParseTag(" " + (PrintAttribute(a) + p), name, before) == ParseTag(p, name, before + [a])
  {
    hide PrintAttribute, ParseAttribute, NoReference, HasName, ReadValue, StartsWith, IsWhiteSpace, IsNameStart, IsNameChar;
    var q := PrintAttribute(a) + p;
    AttributeRead(a, p);
    Delimiters();
    NameNotSpace(a.name[0]);
    assert (" " + q)[1..] == q;
    assert SkipWhiteSpace(" " + q) == q;
  }

  lemma NameNotSpace(c: char)
    ensures IsNameStart(c) ==> !IsWhiteSpace(c) && c != '/' && c != '>' && c != '<'
  {
  }

  lemma {:induction false} ElementRead(l: Layout, depth: nat, n: XmlNode, p: string)
    requires Spacing(l) && n.Element? && Legal(n)
    ensures ParseElement(PrintElement(l, depth, n) + p) == Done(n, p)
    decreases n, 0
  {
    hide PrintAttributes, PrintElement, ParseTag, ParseElement, Legal, LegalAttributes, Siblings, LegalName, Spacing, Inside;
    Parts(n);
    var body := Body(l, depth, n);
    if n.children == [] { EmptyRead(n.name, n.attributes, p); } else { BodyRead(l, depth, n, p); }
    assert [] + n.attributes == n.attributes;
    TagRead(n.name, [], n.attributes, body + p);
    var q := PrintAttributes(n.attributes) + (body + p);
    Printed(l, depth, n, p);
    HeadRead(n.name, q, n.attributes, body + p);
  }

  // What is printed after the attributes.
  function Body(l: Layout, depth: nat, n: XmlNode): string
    requires n.Element?
  {
    if n.children == [] then " />" else ">" + Inside(l, depth, n) + "</" + n.name + ">"
  }

  lemma Printed(l: Layout, depth: nat, n: XmlNode, p: string)
    requires n.Element?
    ensures PrintElement(l, depth, n) + p == "<" + (n.name + (PrintAttributes(n.attributes) + (Body(l, depth, n) + p)))
  {
    hide PrintAttributes, PrintNodes, Break, Margin;
    if n.children != [] {
      var inside := Break(l, n) + PrintNodes(l, depth + 1, Simple(n), n.children) + Margin(l, depth, n);
      assert Body(l, depth, n) == ">" + inside + "</" + n.name + ">";
      assert PrintElement(l, depth, n) == "<" + n.name + PrintAttributes(n.attributes) + Body(l, depth, n);
    }
  }

  // What is printed between the tags.
  function Inside(l: Layout, depth: nat, n: XmlNode): string
    requires n.Element?
  {
    Break(l, n) + PrintNodes(l, depth + 1, Simple(n), n.children) + Margin(l, depth, n)
  }

  lemma HeadRead(name: string, q: string, attributes: seq<Attribute>, body: string)
    requires LegalName(name) && q == PrintAttributes(attributes) + body && body != "" && (body[0] == ' ' || body[0] == '>')
    ensures ParseElement("<" + (name + q)) == ParseTag(q, name, [])
  {
    hide ParseTag, LegalName, IsWhiteSpace, IsNameStart, IsNameChar, PrintAttribute, ReadName;
    Delimiters();
    assert q[0] == ' ' || q[0] == '>';
    NameStarts(name, q);
    NothingSkipped("<" + (name + q));
    assert ("<" + (name + q))[1..] == name + q;
  }

  lemma EmptyRead(name: string, attributes: seq<Attribute>, p: string)
    ensures ParseTag(" />" + p, name, attributes) == Done(Element(name, attributes, []), p)
  {
    var r := " />" + p;
    assert r[1..] == "/>" + p && r[1..][2..] == p;
    assert SkipWhiteSpace(r) == r[1..];
  }

  lemma BodyRead(l: Layout, depth: nat, n: XmlNode, p: string)
    requires Spacing(l) && n.Element? && Legal(n) && n.children != []
    ensures ParseTag(">" + Inside(l, depth, n) + "</" + n.name + ">" + p, n.name, n.attributes) == Done(n, p)
    decreases n.children, 1
  {
    hide PrintNodes, ReadValue, ParseTag, Legal, LegalAttributes, Siblings, LegalName, Simple, Spacing, Blank, StartsWith;
    Parts(n);
    var end := "</" + n.name + ">" + p;
    var inside := Inside(l, depth, n);
    MarginsBlank(l, depth, n);
    Closing(n.name, p);
    NodesRead(l, depth + 1, Simple(n), n.children, [], Break(l, n), Margin(l, depth, n), end);
    assert [] + n.children == n.children;
    EndTagRead(n, inside, p);
    assert ">" + inside + "</" + n.name + ">" + p == ">" + (inside + end);
  }

  lemma MarginsBlank(l: Layout, depth: nat, n: XmlNode)
    requires Spacing(l)
    ensures Blank(Break(l, n)) && Blank(Margin(l, depth, n))
  {
    IndentBlank(l, depth);
  }

  lemma Closing(name: string, p: string)
    ensures var end := "</" + name + ">" + p; StartsWith(end, "</") && StartsWith(end, "</" + name) && end[2 + |name|..] == ">" + p
  {
  }

  lemma EndTagRead(n: XmlNode, inside: string, p: string)
    requires n.Element? && ReadValue(inside + ("</" + n.name + ">" + p), []) == Done(n.children, "</" + n.name + ">" + p)
    ensures ParseTag(">" + (inside + ("</" + n.name + ">" + p)), n.name, n.attributes) == Done(n, p)
  {
    hide ReadValue, StartsWith;
    var end := "</" + n.name + ">" + p;
    var r := ">" + (inside + end);
    assert r[1..] == inside + end;
    Closing(n.name, p);
    assert (">" + p)[1..] == p;
  }

  lemma {:induction false} NodesRead(l: Layout, depth: nat, inLine: bool, ns: seq<XmlNode>, before: seq<XmlNode>,
                                     ws: string, margin: string, end: string)
    requires Spacing(l) && Siblings(ns) && Blank(ws) && Blank(margin) && StartsWith(end, "</")
    ensures ReadValue(ws + PrintNodes(l, depth, inLine, ns) + margin + end, before) == Done(before + ns, end)
    decreases ns, 0
  {
    hide ReadValue, PrintNode, Blank, StartsWith, Legal, Spread, Spacing, Siblings;
    var p := PrintNodes(l, depth, inLine, ns) + margin + end;
    assert ws + PrintNodes(l, depth, inLine, ns) + margin + end == ws + p;
    ReadValueSkips(ws, p, before);
    if ns == [] {
      assert p == margin + end && before + ns == before;
      ReadValueSkips(margin, end, before);
      EndRead(end, before);
    } else {
      FirstChild(ns);
      var n, rest := ns[0], PrintNodes(l, depth, inLine, ns[1..]) + margin + end;
      assert p == PrintNode(l, depth, inLine, n) + rest;
      assert before + ns == before + [n] + ns[1..];
      assert "" + PrintNodes(l, depth, inLine, ns[1..]) + margin + end == rest;
      NothingBlank();
      NodesRead(l, depth, inLine, ns[1..], before + [n], "", margin, end);
      if n.Element? {
        ElementChildRead(l, depth, inLine, n, before, rest);
      } else {
        var b, t := NextTag(l, depth, inLine, ns[1..], margin, end);
        TextChildRead(l, depth, inLine, n, before, b, t);
        assert b + t == rest;
      }
    }
  }

  lemma FirstChild(ns: seq<XmlNode>)
    requires Siblings(ns) && ns != []
    ensures Legal(ns[0]) && Siblings(ns[1..]) && (ns[0].Text? && |ns| > 1 ==> ns[1].Element?)
  {
    hide Legal;
  }

  lemma NothingBlank()
    ensures Blank("")
  {
  }

  lemma EndRead(end: string, before: seq<XmlNode>)
    requires StartsWith(end, "</")
    ensures ReadValue(end, before) == Done(before, end)
  {
    assert end[..2][0] == end[0];
  }

  lemma ElementChildRead(l: Layout, depth: nat, inLine: bool, n: XmlNode, before: seq<XmlNode>, rest: string)
    requires Spacing(l) && n.Element? && Legal(n)
    ensures ReadValue(PrintNode(l, depth, inLine, n) + rest, before) == ReadValue(rest, before + [n])
    decreases n, 1
  {
    hide PrintElement, ParseElement, Spacing, ReadValue;
    var e := PrintElement(l, depth, n);
    assert PrintNode(l, depth, inLine, n) + rest == Indent(l, depth) + (e + (l.lineBreak + rest));
    IndentBlank(l, depth);
    ReadValueSkips(Indent(l, depth), e + (l.lineBreak + rest), before);
    ElementRead(l, depth, n, l.lineBreak + rest);
    ElementStarts(l, depth, n);
    ChildRead(n, e + (l.lineBreak + rest), l.lineBreak + rest, before);
    ReadValueSkips(l.lineBreak, rest, before + [n]) by { assert Blank(l.lineBreak) by { LineBreakBlank(l); } }
  }

  lemma LineBreakBlank(l: Layout)
    requires Spacing(l)
    ensures Blank(l.lineBreak)
  {
  }

  lemma ElementStarts(l: Layout, depth: nat, n: XmlNode)
    requires n.Element? && Legal(n)
    ensures var e := PrintElement(l, depth, n); |e| > 1 && e[0] == '<' && IsNameStart(e[1])
  {
    hide PrintAttributes, PrintNodes;
    Printed(l, depth, n, "");
  }

  lemma ChildRead(n: XmlNode, p: string, rest: string, before: seq<XmlNode>)
    requires |p| > 1 && p[0] == '<' && IsNameStart(p[1]) && ParseElement(p) == Done(n, rest)
    ensures ReadValue(p, before) == ReadValue(rest, before + [n])
  {
    hide ParseElement, IsNameStart, IsWhiteSpace;
    Delimiters();
    assert p[..2][1] == p[1];
    NothingSkipped(p);
  }

  // After a text there is white space and then a tag.
  lemma NextTag(l: Layout, depth: nat, inLine: bool, ns: seq<XmlNode>, margin: string, end: string) returns (b: string, t: string)
    requires Spacing(l) && (ns != [] ==> ns[0].Element?) && Blank(margin) && StartsWith(end, "</")
    ensures Blank(b) && t != "" && t[0] == '<' && PrintNodes(l, depth, inLine, ns) + margin + end == b + t
  {
    hide PrintElement, Blank, Spacing, Legal;
    if ns == [] {
      b, t := margin, end;
      assert end[..2][0] == end[0];
    } else {
      b := Indent(l, depth);
      IndentBlank(l, depth);
      var e, rest := PrintElement(l, depth, ns[0]), PrintNodes(l, depth, inLine, ns[1..]) + margin + end;
      TagFirst(l, depth, ns[0]);
      t := e + (l.lineBreak + rest);
      assert PrintNodes(l, depth, inLine, ns) == (b + e + l.lineBreak) + PrintNodes(l, depth, inLine, ns[1..]);
    }
  }

  lemma TagFirst(l: Layout, depth: nat, n: XmlNode)
    requires n.Element?
    ensures var e := PrintElement(l, depth, n); e != "" && e[0] == '<'
  {
    hide PrintAttributes, PrintNodes;
    Printed(l, depth, n, "");
  }

  lemma TextChildRead(l: Layout, depth: nat, inLine: bool, n: XmlNode, before: seq<XmlNode>, b: string, t: string)
    requires Spacing(l) && n.Text? && Legal(n) && Blank(b) && t != "" && t[0] == '<'
    ensures ReadValue(PrintNode(l, depth, inLine, n) + (b + t), before) == ReadValue(b + t, before + [n])
  {
    hide ReadValue, Encode, Legal;
    var left := if inLine then "" else Indent(l, depth);
    var right := (if inLine then "" else l.lineBreak) + b;
    IndentBlank(l, depth);
    var p := Encode(n.value) + right + t;
    assert PrintNode(l, depth, inLine, n) + (b + t) == left + p;
    ReadValueSkips(left, p, before);
    TextRead(n, right, t, before);
    ReadValueSkips(b, t, before + [n]);
  }

  lemma TextRead(n: XmlNode, ws: string, t: string, before: seq<XmlNode>)
    requires n.Text? && Legal(n) && Blank(ws) && t != "" && t[0] == '<'
    ensures ReadValue(Encode(n.value) + ws + t, before) == ReadValue(t, before + [n])
  {
    hide Condensed, IsWhiteSpace, Spaced, NoReference;
    var v := n.value;
    var p := Encode(v) + ws + t;
    EncodedStarts(v);
    CondensedRead(v, false, ws, t);
    NothingSkipped(p);
  }

  lemma EncodedStarts(v: string)
    requires v != "" && NoReference(v) && v[0] != ' '
    ensures var e := Encode(v); e != "" && e[0] != '<' && !IsWhiteSpace(e[0])
  {
    hide EncodeChar;
    assert v[0..] == v;
  }

  // --- An element that holds a text ---

  // It survives printing and parsing if and only if the text is legal: not blank, without the beginning of a hexadecimal
  // reference, and with its spaces between words, one at a time.
  lemma TextElementSurvives(l: Layout, depth: nat, name: string, attributes: seq<Attribute>, v: string, p: string)
    requires Spacing(l) && LegalName(name) && LegalAttributes(attributes)
    ensures var n := Element(name, attributes, [Text(v)]);
            ParseElement(PrintElement(l, depth, n) + p) == Done(n, p) <==> Legal(Text(v))
  {
    hide PrintAttributes, PrintElement, ParseTag, ParseElement, Legal, LegalAttributes, LegalName, Spacing, Body, Encode;
    var n := Element(name, attributes, [Text(v)]);
    if Legal(Text(v)) {
      TextElementLegal(n, v);
      ElementRead(l, depth, n, p);
    } else {
      TextBody(l, depth, n, v, p);
      var body := Body(l, depth, n) + p;
      assert [] + attributes == attributes;
      TagRead(name, [], attributes, body);
      Printed(l, depth, n, p);
      HeadRead(name, PrintAttributes(attributes) + body, attributes, body);
      TextLostInTag(name, attributes, v, p);
    }
  }

  lemma TextElementLegal(n: XmlNode, v: string)
    requires n.Element? && n.children == [Text(v)] && LegalName(n.name) && LegalAttributes(n.attributes) && Legal(Text(v))
    ensures Legal(n)
  {
    hide LegalName, Blank, NoReference, Spaced;
  }

  lemma TextBody(l: Layout, depth: nat, n: XmlNode, v: string, p: string)
    requires n.Element? && n.children == [Text(v)]
    ensures Body(l, depth, n) + p == ">" + (Encode(v) + ("</" + n.name + ">" + p))
  {
    hide Encode;
    assert PrintNodes(l, depth + 1, true, n.children) == Encode(v) by {
      assert n.children[1..] == [];
      assert PrintNode(l, depth + 1, true, n.children[0]) + "" == Encode(v);
    }
    assert Inside(l, depth, n) == Encode(v);
  }

  lemma TextLostInTag(name: string, attributes: seq<Attribute>, v: string, p: string)
    requires !Legal(Text(v))
    ensures ParseTag(">" + (Encode(v) + ("</" + name + ">" + p)), name, attributes) != Done(Element(name, attributes, [Text(v)]), p)
  {
    hide ReadValue, StartsWith, Encode, Legal, Closed;
    var end := "</" + name + ">" + p;
    var r := ">" + (Encode(v) + end);
    assert r[1..] == Encode(v) + end;
    Closing(name, p);
    TextLostInValue(v, end);
    ClosedShort(ReadValue(Encode(v) + end, []), name, attributes, p);
  }

  // An end tag takes its length.
  lemma ClosedShort(v: Outcome<seq<XmlNode>>, name: string, attributes: seq<Attribute>, p: string)
    ensures var r := Closed(v, name, attributes);
            r.Done? && r.rest == p ==> v.Done? && |v.rest| >= |"</" + name + ">" + p| && r.value.Element? && r.value.children == v.value
  {
  }

  // A text that is not legal is not read, or more is taken for it than was written.
  lemma TextLostInValue(v: string, end: string)
    requires StartsWith(end, "</") && !Legal(Text(v))
    ensures var r := ReadValue(Encode(v) + end, []); r.Done? && r.value == [Text(v)] ==> |r.rest| < |end|
  {
    hide ReadNodes, Condensed, SkipWhiteSpace, Encode, Legal, StartsWith, IsWhiteSpace;
    var x := Encode(v) + end;
    var q := SkipWhiteSpace(x);
    EndStarts(end);
    SkippedNotMore(v, end);
    assert x[|x| - |end|..] == end;
    if q == "" {
      Exhausted();
    } else if q[0] == '<' {
      AtTag(q);
      if |q| == |end| { AtEndTag(end, []); }
    } else if Condensed(q, false).Some? {
      TextLostInText(v, end, q, Condensed(q, false).value.0, Condensed(q, false).value.1);
    } else {
      NoTextTurn(q);
    }
  }

  lemma Exhausted()
    ensures ReadNodes("", []) == Failed
  {
  }

  lemma TextLostInText(v: string, end: string, q: string, t: string, z: string)
    requires StartsWith(end, "</") && !Legal(Text(v)) && q == SkipWhiteSpace(Encode(v) + end) && q != "" && q[0] != '<'
    requires Condensed(q, false) == Some((t, z)) && |z| <= |end|
    ensures var r := ReadNodes(q, []); r.Done? && r.value == [Text(v)] ==> |r.rest| < |end|
  {
    hide ReadNodes, ReadValue, Condensed, SkipWhiteSpace, Encode, Legal, StartsWith, IsWhiteSpace, Blank;
    var x := Encode(v) + end;
    EndStarts(end);
    SuffixLeft(q, false);
    assert x[|x| - |end|..] == end;
    assert z == q[|q| - |z|..] == x[|x| - |q|..][|q| - |z|..] == x[|x| - |z|..];
    TextTurn(q, t, z);
    if |z| < |end| {
      var rest, w := if z == "" then q[|q| - 1..] else z, if Blank(t) then [] else [] + [Text(t)];
      assert |rest| < |end| && (ReadValue(rest, w).Done? ==> |ReadValue(rest, w).rest| <= |rest|);
    } else {
      assert z == end;
      AtEndTag(end, if Blank(t) then [] else [] + [Text(t)]);
      OnlyText(t, v);
      TextSurvives(v, end);
      LegalText(v);
    }
  }

  lemma OnlyText(t: string, v: string)
    ensures (if Blank(t) then [] else [] + [Text(t)]) == [Text(v)] ==> t == v && !Blank(v)
  {
    hide Blank;
    assert ([] + [Text(t)])[0] == Text(t) && [Text(v)][0] == Text(v);
  }

  lemma LegalText(v: string)
    ensures Legal(Text(v)) <==> !Blank(v) && NoReference(v) && Spaced(v) && (v != "" ==> v[0] != ' ')
  {
    hide NoReference, Spaced;
  }

  lemma AtEndTag(end: string, children: seq<XmlNode>)
    requires StartsWith(end, "</")
    ensures ReadValue(end, children) == ReadNodes(end, children) == Done(children, end)
  {
    hide ReadNodes, SkipWhiteSpace, StartsWith, IsWhiteSpace;
    EndStarts(end);
    EndRead(end, children);
    Delimiters();
    NothingSkipped(end);
  }

  lemma EndStarts(end: string)
    requires StartsWith(end, "</")
    ensures |end| > 1 && end[0] == '<'
  {
    assert end[..2][0] == end[0];
  }

  lemma AtTag(q: string)
    requires q != "" && q[0] == '<'
    ensures Condensed(q, false) == Some(("", q))
  {
  }

  // One turn of the loop for a text, when there is one and when there is none.
  lemma TextTurn(q: string, t: string, z: string)
    requires q != "" && q[0] != '<' && !IsWhiteSpace(q[0]) && Condensed(q, false) == Some((t, z))
    ensures var r := ReadNodes(q, []);
            r.Done? ==> r == ReadValue(if z == "" then q[|q| - 1..] else z, if Blank(t) then [] else [] + [Text(t)])
  {
    hide Condensed, ReadValue, Blank, IsWhiteSpace;
  }

  lemma NoTextTurn(q: string)
    requires q != "" && q[0] != '<' && !IsWhiteSpace(q[0]) && Condensed(q, false) == None
    ensures ReadNodes(q, []) == Failed
  {
    hide Condensed, IsWhiteSpace;
  }

  // --- Whole documents ---

  predicate LegalDocument(ns: seq<XmlNode>) {
    forall i | 0 <= i < |ns| :: ns[i].Element? && Legal(ns[i])
  }

  lemma {:induction false} ElementsRead(l: Layout, ns: seq<XmlNode>, before: seq<XmlNode>, ws: string)
    requires Spacing(l) && LegalDocument(ns) && before + ns != [] && Blank(ws)
    ensures ParseDocument(ws + PrintNodes(l, 0, false, ns), before) == Done(before + ns, "")
    decreases |ns|
  {
    hide Blank, Legal, ParseDocument, PrintNode, Spacing;
    var p := PrintNodes(l, 0, false, ns);
    ParseDocumentSkips(ws, p, before);
    if ns == [] {
      assert before + ns == before;
      NothingLeft(before);
    } else {
      var rest := PrintNodes(l, 0, false, ns[1..]);
      assert before + ns == before + [ns[0]] + ns[1..];
      ElementsRead(l, ns[1..], before + [ns[0]], "") by { NothingBlank(); }
      assert "" + rest == rest;
      FirstElementRead(l, ns[0], before, rest);
    }
  }

  lemma NothingLeft(before: seq<XmlNode>)
    requires before != []
    ensures ParseDocument("", before) == Done(before, "")
  {
  }

  lemma ParseDocumentSkips(ws: string, p: string, before: seq<XmlNode>)
    requires Blank(ws)
    ensures ParseDocument(ws + p, before) == ParseDocument(p, before)
  {
    hide ParseRoots, SkipWhiteSpace, Blank;
    assert SkipWhiteSpace(ws + p) == SkipWhiteSpace(p) by { BlankSkipped(ws, p); }
  }

  lemma FirstElementRead(l: Layout, n: XmlNode, before: seq<XmlNode>, rest: string)
    requires Spacing(l) && n.Element? && Legal(n)
    ensures ParseDocument(PrintNode(l, 0, false, n) + rest, before) == ParseDocument(rest, before + [n])
  {
    hide PrintElement, ParseElement, ParseDocument, Spacing, Legal;
    var e := PrintElement(l, 0, n);
    assert PrintNode(l, 0, false, n) + rest == e + (l.lineBreak + rest);
    ElementRead(l, 0, n, l.lineBreak + rest);
    ElementStarts(l, 0, n);
    RootRead(n, e + (l.lineBreak + rest), l.lineBreak + rest, before);
    LineBreakBlank(l);
    ParseDocumentSkips(l.lineBreak, rest, before + [n]);
  }

  lemma RootRead(n: XmlNode, p: string, rest: string, before: seq<XmlNode>)
    requires |p| > 1 && p[0] == '<' && IsNameStart(p[1]) && ParseElement(p) == Done(n, rest)
    ensures ParseDocument(p, before) == ParseDocument(rest, before + [n])
  {
    hide ParseElement, IsNameStart, IsWhiteSpace;
    Delimiters();
    NothingSkipped(p);
  }

  // However a document of legal elements is laid out, parsing what has been printed gives it back.
  lemma DocumentRoundTrip(l: Layout, ns: seq<XmlNode>)
    requires Spacing(l) && LegalDocument(ns) && ns != []
    ensures ParseDocument(PrintNodes(l, 0, false, ns), []) == Done(ns, "")
  {
    hide PrintNodes, ParseDocument, Spacing, LegalDocument;
    NothingBlank();
    ElementsRead(l, ns, [], "");
    assert "" + PrintNodes(l, 0, false, ns) == PrintNodes(l, 0, false, ns) && [] + ns == ns;
  }

  // --- Whatever has been parsed ---

  lemma {:induction false} NameRun(p: string)
    ensures forall i | 0 <= i < NameLength(p) :: IsNameChar(p[i])
    ensures p != "" && IsNameStart(p[0]) ==> NameLength(p) > 0
  {
    hide IsNameChar, IsNameStart;
    if p != "" {
      NameStartIsNameChar(p[0]);
      if IsNameChar(p[0]) { NameRun(p[1..]); }
    }
  }

  lemma NameStartIsNameChar(c: char)
    ensures IsNameStart(c) ==> IsNameChar(c)
  {
  }

  lemma NamesLegal(p: string)
    ensures var r := ReadName(p); r.Some? ==> LegalName(r.value.0)
  {
    hide IsNameChar, IsNameStart;
    NameRun(p);
  }

  lemma AttributeNameLegal(p: string)
    ensures var r := ParseAttribute(p); r.Some? ==> LegalName(r.value.0.name)
  {
    hide LegalName, ReadName, ParseValue;
    NamesLegal(SkipWhiteSpace(p));
  }

  lemma {:induction false} ElementShaped(p: string)
    ensures var r := ParseElement(p); r.Done? ==> r.value.Element? && Shaped(r.value)
    decreases |p|, 0
  {
    hide ParseTag, ReadName, Shaped, LegalName;
    var p := SkipWhiteSpace(p);
    if p != "" {
      NamesLegal(SkipWhiteSpace(p[1..]));
      var r := ReadName(SkipWhiteSpace(p[1..]));
      if r.Some? { TagShaped(r.value.1, r.value.0, []); }
    }
  }

  lemma {:induction false} TagShaped(p: string, name: string, attributes: seq<Attribute>)
    requires LegalName(name) && Named(attributes)
    ensures var r := ParseTag(p, name, attributes); r.Done? ==> r.value.Element? && Shaped(r.value)
    decreases |p|, 0
  {
    hide ReadValue, ParseAttribute, LegalName, Named, StartsWith, HasName;
    var p := SkipWhiteSpace(p);
    if p != "" {
      if p[0] == '>' {
        ValueShaped(p[1..], []);
      } else if p[0] != '/' {
        var a := ParseAttribute(p);
        if a.Some? && !HasName(attributes, a.value.0.name) {
          AttributeNameLegal(p);
          OneMoreNamed(attributes, a.value.0);
          TagShaped(a.value.1, name, attributes + [a.value.0]);
        }
      }
    }
  }

  lemma OneMoreNamed(attributes: seq<Attribute>, a: Attribute)
    requires Named(attributes) && LegalName(a.name) && !HasName(attributes, a.name)
    ensures Named(attributes + [a])
  {
    hide LegalName;
  }

  // After a text nothing but a tag can follow.
  predicate AfterText(p: string, children: seq<XmlNode>) {
    children != [] && children[|children| - 1].Text? ==> var q := SkipWhiteSpace(p); q == "" || q[0] == '<' || |q| == 1
  }

  lemma {:induction false} ValueShaped(p: string, children: seq<XmlNode>)
    requires AllShaped(children) && AfterText(p, children)
    ensures var r := ReadValue(p, children); r.Done? ==> AllShaped(r.value)
    decreases |p|, 1
  {
    hide ParseElement, Condensed, Shaped, AllShaped, AfterText, StartsWith, Blank;
    var q := SkipWhiteSpace(p);
    if q != "" {
      if q[0] != '<' {
        var t := ParseText(q);
        if t.Some? && |t.value.1| < |q| {
          TextShaped(p, t.value.0, t.value.1, children);
          ValueShaped(t.value.1, if Blank(t.value.0) then children else children + [Text(t.value.0)]);
        }
      } else if !StartsWith(q, "</") && |q| > 1 && IsNameStart(q[1]) {
        ElementShaped(q);
        var e := ParseElement(q);
        if e.Done? {
          ElementAfter(children, e.value, e.rest);
          ValueShaped(e.rest, children + [e.value]);
        }
      }
    }
  }

  lemma TextShaped(p: string, v: string, rest: string, children: seq<XmlNode>)
    requires AllShaped(children) && AfterText(p, children)
    requires var q := SkipWhiteSpace(p); q != "" && q[0] != '<' && ParseText(q) == Some((v, rest)) && |rest| < |q|
    ensures var cs := if Blank(v) then children else children + [Text(v)]; AllShaped(cs) && AfterText(rest, cs)
  {
    hide ParseText, SkipWhiteSpace, AllShaped, Blank;
    TagFollows(SkipWhiteSpace(p), v, rest);
    AfterElement(p, children);
    if !Blank(v) { OneMoreText(v, children); }
  }

  // Where a text is read, the last child is an element.
  lemma AfterElement(p: string, children: seq<XmlNode>)
    requires AfterText(p, children) && var q := SkipWhiteSpace(p); |q| > 1 && q[0] != '<'
    ensures children == [] || children[|children| - 1].Element?
  {
    hide SkipWhiteSpace;
  }

  lemma OneMoreText(v: string, children: seq<XmlNode>)
    requires AllShaped(children) && !Blank(v) && (children == [] || children[|children| - 1].Element?)
    ensures AllShaped(children + [Text(v)])
  {
    hide Blank;
    assert Shaped(Text(v));
  }

  lemma TagFollows(q: string, v: string, rest: string)
    requires q != "" && q[0] != '<' && !IsWhiteSpace(q[0]) && ParseText(q) == Some((v, rest))
    ensures rest != "" && var r := SkipWhiteSpace(rest); r == "" || r[0] == '<' || |r| == 1
  {
    hide Condensed, IsWhiteSpace;
    Delimiters();
    if rest != "" && rest[0] == '<' { NothingSkipped(rest); }
  }

  lemma ElementAfter(children: seq<XmlNode>, e: XmlNode, p: string)
    requires AllShaped(children) && e.Element? && Shaped(e)
    ensures AllShaped(children + [e]) && AfterText(p, children + [e])
  {
    hide Shaped;
  }

  predicate AllShaped(ns: seq<XmlNode>) {
    Spread(ns) && forall i | 0 <= i < |ns| :: Shaped(ns[i])
  }

  // Whatever an element has been parsed from: as long as its strings are clean, it survives printing and parsing again.
  lemma Reparse(l: Layout, depth: nat, p: string, rest: string)
    requires Spacing(l) && var r := ParseElement(p); r.Done? && Clean(r.value)
    ensures var n := ParseElement(p).value; n.Element? && ParseElement(PrintElement(l, depth, n) + rest) == Done(n, rest)
  {
    hide ParseElement, PrintElement, Shaped, Clean, Spacing;
    ElementShaped(p);
    ElementRead(l, depth, ParseElement(p).value, rest);
  }
}
