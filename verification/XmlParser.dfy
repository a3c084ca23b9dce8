// The parser, which moves a pointer through the input; the pointer is what is left of it, and None where the source has NULL.
module XmlParser {
  import opened Basics
  import opened XmlText
  import opened XmlTree

  method SkipWhiteSpace(start: string) returns (p: string)
    ensures p == XmlText.SkipWhiteSpace(start)
  {
    p := start;
    while p != "" && IsWhiteSpace(p[0])
      invariant XmlText.SkipWhiteSpace(p) == XmlText.SkipWhiteSpace(start)
      decreases |p|
    {
      p := p[1..];
    }
  }

  method ReadName(start: string) returns (r: Option<(string, string)>)
    ensures r == XmlText.ReadName(start)
  {
    hide IsNameStart, IsNameChar;
    var p := start;
    if p != "" && IsNameStart(p[0]) {
      ghost var k := 0;
      while p != "" && IsNameChar(p[0])
        invariant k <= |start| && p == start[k..] && NameLength(start) == k + NameLength(p)
        decreases |p|
      {
        p := p[1..];
        k := k + 1;
      }
      return Some((start[..|start| - |p|], p));
    }
    return None;
  }

  // The number in some digits, from the last one back to the mark.
  method ReadDigits(t: string, mark: char) returns (r: Option<nat>)
    ensures r == Number(t, mark)
  {
    hide Scaled, HexValue, DecimalValue;
    var ucs: nat, mult: nat, q := 0, 1, t;
    var base := if mark == 'x' then 16 else 10;
    ScaledByOne(Number(t, mark));
    while q != "" && q[|q| - 1] != mark
      invariant |q| <= |t| && Number(t, mark) == Scaled(Number(q, mark), mult, ucs)
      decreases |q|
    {
      var c := q[|q| - 1];
      var d := if mark == 'x' then HexValue(c) else DecimalValue(c);
      Shifted(Number(q[..|q| - 1], mark), base, d, mult, ucs);
      if d.None? { return None; }
      ucs := ucs + mult * d.value;
      mult := mult * base;
      q := q[..|q| - 1];
    }
    ScaledNothing(mult, ucs);
    return Some(ucs);
  }

  // What a number is worth when its digits stand to the left of others.
  function Scaled(n: Option<nat>, mult: nat, ucs: nat): Option<nat> {
    match n case None => None case Some(k) => Some(k * mult + ucs)
  }

  lemma ScaledByOne(n: Option<nat>)
    ensures Scaled(n, 1, 0) == n
  {
  }

  lemma ScaledNothing(mult: nat, ucs: nat)
    ensures Scaled(Some(0), mult, ucs) == Some(ucs)
  {
  }

  lemma Shifted(n: Option<nat>, base: nat, d: Option<nat>, mult: nat, ucs: nat)
    ensures var r := match (d, n) case (Some(x), Some(k)) => Some(k * base + x) case _ => None;
            if d.None? then Scaled(r, mult, ucs) == None else Scaled(r, mult, ucs) == Scaled(n, mult * base, ucs + mult * d.value)
  {
    if n.Some? && d.Some? {
      var k, x := n.value, d.value;
      assert (k * base + x) * mult == k * base * mult + x * mult;
      assert k * base * mult == k * (mult * base);
    }
  }

  method FindSemicolon(p: string) returns (k: Option<nat>)
    ensures k == Semicolon(p)
  {
    var i := 0;
    assert p[0..] == p;
    while i < |p|
      invariant i <= |p| && Semicolon(p) == match Semicolon(p[i..]) case None => None case Some(j) => Some(i + j)
    {
      if p[i] == ';' { return Some(i); }
      assert p[i..][1..] == p[i + 1..];
      i := i + 1;
    }
    return None;
  }

  method GetEntity(p: string) returns (r: Option<(string, string)>)
    requires p != ""
    ensures r == XmlText.GetEntity(p)
  {
    if |p| > 2 && p[1] == '#' {
      var start, mark := if p[2] == 'x' then 3 else 2, if p[2] == 'x' then 'x' else '#';
      if |p| <= start { return None; }
      var k := FindSemicolon(p[start..]);
      if k.None? { return None; }
      var n := ReadDigits(p[start..start + k.value], mark);
      if n.None? { return None; }
      return Some(([(n.value % 256) as char], p[start + k.value + 1..]));
    }
    var entities := [("&amp;", '&'), ("&lt;", '<'), ("&gt;", '>'), ("&quot;", '\"'), ("&apos;", '\'')];
    var i := 0;
    while i < |entities|
      invariant i <= |entities| && forall j | 0 <= j < i :: !StartsWith(p, entities[j].0)
    {
      if StartsWith(p, entities[i].0) {
        assert forall j | 0 <= j < i :: !StartsWith(p, entities[j].0);
        return Some(([entities[i].1], p[|entities[i].0|..]));
      }
      i := i + 1;
    }
    assert !StartsWith(p, entities[0].0) && !StartsWith(p, entities[1].0) && !StartsWith(p, entities[2].0);
    assert !StartsWith(p, entities[3].0) && !StartsWith(p, entities[4].0);
    return Some(("", p[1..]));
  }

  method GetChar(p: string) returns (r: Option<(string, string)>)
    requires p != ""
    ensures r == XmlText.GetChar(p)
  {
    if p[0] == '&' {
      r := GetEntity(p);
    } else {
      r := Some(([p[0]], p[1..]));
    }
  }

  // Read up to an end tag of one character and past it.
  method ReadText(start: string, trimWhiteSpace: bool, end: char) returns (r: Option<(string, string)>)
    requires trimWhiteSpace ==> end == '<'
    ensures r == if trimWhiteSpace then PastTag(Condensed(XmlText.SkipWhiteSpace(start), false)) else Kept(start, end)
  {
    hide XmlText.GetChar, IsWhiteSpace;
    var text, p := "", start;
    if !trimWhiteSpace {
      BeforeNothing(Kept(p, end));
      while p != "" && p[0] != end
        invariant Kept(start, end) == Before(text, Kept(p, end))
        decreases |p|
      {
        var c := GetChar(p);
        if c.None? { return None; }
        BeforeTwice(text, c.value.0, Kept(c.value.1, end));
        text, p := text + c.value.0, c.value.1;
      }
    } else {
      var whitespace := false;
      p := SkipWhiteSpace(p);
      ghost var start' := p;
      BeforeNothing(Condensed(p, false));
      while p != "" && p[0] != end
        invariant Condensed(start', false) == Before(text, Condensed(p, whitespace))
        decreases |p|
      {
        if IsWhiteSpace(p[0]) {
          whitespace := true;
          p := p[1..];
        } else {
          ghost var was, space := text, whitespace;
          if whitespace {
            text := text + " ";
            whitespace := false;
          }
          var c := GetChar(p);
          if c.None? { return None; }
          ghost var t := if space then " " + c.value.0 else c.value.0;
          BeforeTwice(was, t, Condensed(c.value.1, false));
          assert was + t == text + c.value.0;
          text, p := text + c.value.0, c.value.1;
        }
      }
    }
    if p != "" { p := p[1..]; }
    assert text + "" == text;
    return Some((text, p));
  }

  // Past the tag in front of which some text ended.
  function PastTag(r: Option<(string, string)>): Option<(string, string)> {
    match r case None => None case Some(x) => Some((x.0, if x.1 == "" then "" else x.1[1..]))
  }

  lemma BeforeNothing(r: Option<(string, string)>)
    ensures Before("", r) == r
  {
    if r.Some? { assert "" + r.value.0 == r.value.0; }
  }

  lemma BeforeTwice(a: string, b: string, r: Option<(string, string)>)
    ensures Before(a, Before(b, r)) == Before(a + b, r)
  {
    if r.Some? { assert a + (b + r.value.0) == a + b + r.value.0; }
  }

  // Read a name, the equals sign and the value, in quotes of either kind or in none.
  method ParseAttribute(start: string) returns (r: Option<(Attribute, string)>)
    ensures r == XmlTree.ParseAttribute(start)
  {
    hide XmlText.ReadName, IsWhiteSpace, ParseValue;
    var p := SkipWhiteSpace(start);
    var n := ReadName(p);
    if n.None? { return None; }
    p := SkipWhiteSpace(n.value.1);
    if p == "" || p[0] != '=' { return None; }
    p := SkipWhiteSpace(p[1..]);
    var v := ReadAttributeValue(p);
    if v.None? { return None; }
    return Some((Attribute(n.value.0, v.value.0), v.value.1));
  }

  method ReadAttributeValue(p: string) returns (r: Option<(string, string)>)
    ensures r == ParseValue(p)
  {
    hide Kept, Unquoted;
    if p == "" { return None; }
    if p[0] == '\'' {
      r := ReadText(p[1..], false, '\'');
    } else if p[0] == '\"' {
      r := ReadText(p[1..], false, '\"');
    } else {
      r := ReadUnquoted(p);
    }
  }

  method ReadUnquoted(start: string) returns (r: Option<(string, string)>)
    ensures r == Unquoted(start)
  {
    hide IsWhiteSpace;
    var value, p := "", start;
    BeforeNothing(Unquoted(p));
    while p != "" && !IsWhiteSpace(p[0]) && p[0] != '/' && p[0] != '>'
      invariant Unquoted(start) == Before(value, Unquoted(p))
      decreases |p|
    {
      if p[0] == '\'' || p[0] == '\"' { return None; }
      BeforeTwice(value, [p[0]], Unquoted(p[1..]));
      value, p := value + [p[0]], p[1..];
    }
    assert value + "" == value;
    return Some((value, p));
  }

  // The source steps back by one from where the text has been read to.
  method ParseText(start: string) returns (r: Option<(string, string)>)
    requires start != "" && start[0] != '<' && !IsWhiteSpace(start[0])
    ensures r == XmlTree.ParseText(start)
  {
    hide IsWhiteSpace, Condensed, XmlText.SkipWhiteSpace;
    NothingSkipped(start);
    var t := ReadText(start, true, '<');
    if t.None? { return None; }
    SuffixLeft(start, false);
    var back := |start| - |t.value.1| - 1;
    return Some((t.value.0, start[back..]));
  }

  // An element, from in front of its tag.
  method ParseElement(start: string) returns (r: Outcome<XmlNode>)
    ensures r == XmlTree.ParseElement(start)
    decreases |start|, 0
  {
    hide ParseTag, XmlText.ReadName, IsWhiteSpace, HasName;
    var p := SkipWhiteSpace(start);
    if p == "" || p[0] != '<' { return Failed; }
    p := SkipWhiteSpace(p[1..]);
    var n := ReadName(p);
    if n.None? || n.value.1 == "" { return Failed; }
    var value := n.value.0;
    p := n.value.1;
    r := Attributes(p, value);
  }

  method Attributes(start: string, name: string) returns (r: Outcome<XmlNode>)
    ensures r == ParseTag(start, name, [])
    decreases |start|, 0
  {
    hide XmlTree.ParseAttribute, XmlTree.ReadValue, IsWhiteSpace, HasName, StartsWith;
    var attributes: seq<Attribute>, p := [], start;
    while true
      invariant |p| <= |start| && ParseTag(start, name, []) == ParseTag(p, name, attributes)
      decreases |p|
    {
      p := SkipWhiteSpace(p);
      if p == "" { return Failed; }
      if p[0] == '/' {
        p := p[1..];
        if p == "" || p[0] != '>' { return Failed; }
        return Done(Element(name, attributes, []), p[1..]);
      } else if p[0] == '>' {
        var v := ReadValue(p[1..]);
        r := EndTag(v, name, attributes);
        return;
      }
      var a := ParseAttribute(p);
      if a.None? || a.value.1 == "" { return Failed; }
      var twice := Find(attributes, a.value.0.name);
      if twice { return Failed; }
      attributes := attributes + [a.value.0];
      p := a.value.1;
    }
  }

  method EndTag(v: Outcome<seq<XmlNode>>, name: string, attributes: seq<Attribute>) returns (r: Outcome<XmlNode>)
    ensures r == Closed(v, name, attributes)
  {
    match v
    case Failed => r := Failed;
    case Endless => r := Endless;
    case Foreign => r := Foreign;
    case Done(children, q) =>
      if !StartsWith(q, "</" + name) { return Failed; }
      var p := SkipWhiteSpace(q[2 + |name|..]);
      if p == "" || p[0] != '>' { return Failed; }
      r := Done(Element(name, attributes, children), p[1..]);
  }

  method Find(attributes: seq<Attribute>, name: string) returns (found: bool)
    ensures found == HasName(attributes, name)
  {
    for i := 0 to |attributes|
      invariant forall j | 0 <= j < i :: attributes[j].name != name
    {
      if attributes[i].name == name { return true; }
    }
    return false;
  }

  // Read texts and elements in any order, up to an end tag.
  method ReadValue(start: string) returns (r: Outcome<seq<XmlNode>>)
    ensures r == XmlTree.ReadValue(start, [])
    decreases |start|, 1
  {
    hide XmlTree.ParseElement, XmlTree.ParseText, XmlText.SkipWhiteSpace, IsWhiteSpace, IsNameStart, StartsWith, Blank;
    var children: seq<XmlNode> := [];
    var p := SkipWhiteSpace(start);
    while p != ""
      invariant |p| <= |start| && (p != "" ==> !IsWhiteSpace(p[0]))
      invariant XmlTree.ReadValue(start, []) == ReadNodes(p, children)
      decreases |p|
    {
      if p[0] != '<' {
        var t := ParseText(p);
        if t.None? { return Failed; }
        if |t.value.1| >= |p| { return Endless; }
        var blank := IsBlank(t.value.0);
        if !blank { children := children + [Text(t.value.0)]; }
        p := t.value.1;
      } else if StartsWith(p, "</") {
        return Done(children, p);
      } else if |p| > 1 && IsNameStart(p[1]) {
        var e := ParseElement(p);
        if e.Failed? { return Failed; }
        if e.Endless? { return Endless; }
        if e.Foreign? { return Foreign; }
        children := children + [e.value];
        p := e.rest;
      } else {
        return Foreign;
      }
      p := SkipWhiteSpace(p);
    }
    return Failed;
  }

  method IsBlank(s: string) returns (b: bool)
    ensures b == Blank(s)
  {
    for i := 0 to |s|
      invariant forall j | 0 <= j < i :: IsWhiteSpace(s[j])
    {
      if !IsWhiteSpace(s[i]) { return false; }
    }
    return true;
  }

  // Elements one after the other; something that is not a tag ends them.
  method ParseDocument(start: string) returns (r: Outcome<seq<XmlNode>>)
    ensures r == XmlTree.ParseDocument(start, [])
  {
    hide XmlTree.ParseElement, XmlText.SkipWhiteSpace, IsWhiteSpace, IsNameStart;
    var children: seq<XmlNode> := [];
    var p := SkipWhiteSpace(start);
    while p != ""
      invariant XmlTree.ParseDocument(start, []) == ParseRoots(p, children)
      decreases |p|
    {
      if p[0] != '<' { break; }
      if |p| <= 1 || !IsNameStart(p[1]) { return Foreign; }
      var e := ParseElement(p);
      if e.Failed? { return Failed; }
      if e.Endless? { return Endless; }
      if e.Foreign? { return Foreign; }
      children := children + [e.value];
      p := SkipWhiteSpace(e.rest);
    }
    return if children == [] then Failed else Done(children, p);
  }
}
