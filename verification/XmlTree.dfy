// Trees of elements and texts: how TinyXML prints them and how it parses them.
module XmlTree {
  import opened Basics
  import opened XmlText

  datatype Attribute = Attribute(name: string, value: string)

  datatype XmlNode =
    | Element(name: string, attributes: seq<Attribute>, children: seq<XmlNode>)
    | Text(value: string)

  // A pretty printer's indentation and line breaks; both are empty for streaming.
  datatype Layout = Layout(indent: string, lineBreak: string)

  // --- Printing ---

  function PrintAttribute(a: Attribute): string {
    var quote := if '\"' in a.value then "'" else "\"";
    Encode(a.name) + "=" + quote + Encode(a.value) + quote
  }

  function PrintAttributes(attributes: seq<Attribute>): string {
    if attributes == [] then "" else " " + PrintAttribute(attributes[0]) + PrintAttributes(attributes[1..])
  }

  function Indent(l: Layout, depth: nat): string {
    if depth == 0 then "" else l.indent + Indent(l, depth - 1)
  }

  // An only child that is a text is printed on the line of its parent.
  predicate Simple(n: XmlNode) {
    n.Element? && |n.children| == 1 && n.children[0].Text?
  }

  function PrintNode(l: Layout, depth: nat, inLine: bool, n: XmlNode): string
    decreases n
  {
    match n
    case Text(v) => if inLine then Encode(v) else Indent(l, depth) + Encode(v) + l.lineBreak
    case Element(_, _, _) => Indent(l, depth) + PrintElement(l, depth, n) + l.lineBreak
  }

  function PrintElement(l: Layout, depth: nat, n: XmlNode): string
    requires n.Element?
    decreases n, 0
  {
    "<" + n.name + PrintAttributes(n.attributes) +
    if n.children == [] then " />"
    else ">" + Break(l, n) + PrintNodes(l, depth + 1, Simple(n), n.children) + Margin(l, depth, n) + "</" + n.name + ">"
  }

  function Break(l: Layout, n: XmlNode): string {
    if Simple(n) then "" else l.lineBreak
  }

  function Margin(l: Layout, depth: nat, n: XmlNode): string {
    if Simple(n) then "" else Indent(l, depth)
  }

  function PrintNodes(l: Layout, depth: nat, inLine: bool, ns: seq<XmlNode>): string
    decreases ns
  {
    if ns == [] then "" else PrintNode(l, depth, inLine, ns[0]) + PrintNodes(l, depth, inLine, ns[1..])
  }

  // --- Parsing ---

  // What comes of parsing: a value and what is left, or an error; Endless if the last character of the input would be read
  // again and again; and Foreign for a comment, a declaration or something else that is not part of this model.
  datatype Outcome<T> = Done(value: T, rest: string) | Failed | Endless | Foreign

  // An attribute's value that is not quoted.
  function Unquoted(p: string): (r: Option<(string, string)>)
    ensures r.Some? ==> |r.value.1| <= |p|
  {
    if p == "" || IsWhiteSpace(p[0]) || p[0] == '/' || p[0] == '>' then Some(("", p))
    else if p[0] == '\'' || p[0] == '\"' then None
    else Before([p[0]], Unquoted(p[1..]))
  }

  function ParseValue(p: string): (r: Option<(string, string)>)
    ensures r.Some? ==> |r.value.1| <= |p|
  {
    if p == "" then None
    else if p[0] == '\'' || p[0] == '\"' then Kept(p[1..], p[0])
    else Unquoted(p)
  }

  function ParseAttribute(p: string): (r: Option<(Attribute, string)>)
    ensures r.Some? ==> |r.value.1| < |p|
  {
    hide SkipWhiteSpace, ReadName, ParseValue;
    match ReadName(SkipWhiteSpace(p))
    case None => None
    case Some((name, q)) =>
      var e := SkipWhiteSpace(q);
      if e == "" || e[0] != '=' then None
      else match ParseValue(SkipWhiteSpace(e[1..]))
           case None => None
           case Some((value, r)) => Some((Attribute(name, value), r))
  }

  predicate HasName(attributes: seq<Attribute>, name: string) {
    exists i | 0 <= i < |attributes| :: attributes[i].name == name
  }

  function ParseElement(p: string): (r: Outcome<XmlNode>)
    ensures r.Done? ==> |r.rest| < |p|
    decreases |p|, 0
  {
    var p := SkipWhiteSpace(p);
    if p == "" || p[0] != '<' then Failed
    else match ReadName(SkipWhiteSpace(p[1..]))
         case None => Failed
         case Some((name, q)) => if q == "" then Failed else ParseTag(q, name, [])
  }

  // The attributes and what follows them.
  function ParseTag(p: string, name: string, attributes: seq<Attribute>): (r: Outcome<XmlNode>)
    ensures r.Done? ==> |r.rest| < |p|
    decreases |p|, 0
  {
    var p := SkipWhiteSpace(p);
    if p == "" then Failed
    else if p[0] == '/' then
      if |p| > 1 && p[1] == '>' then Done(Element(name, attributes, []), p[2..]) else Failed
    else if p[0] == '>' then
      Closed(ReadValue(p[1..], []), name, attributes)
    else
      match ParseAttribute(p)
      case None => Failed
      case Some((a, q)) =>
        if q == "" || HasName(attributes, a.name) then Failed else ParseTag(q, name, attributes + [a])
  }

  // The end tag that has to follow the children.
  function Closed(v: Outcome<seq<XmlNode>>, name: string, attributes: seq<Attribute>): (r: Outcome<XmlNode>)
    ensures r.Done? ==> v.Done? && |r.rest| < |v.rest|
  {
    match v
    case Done(children, q) =>
      if StartsWith(q, "</" + name) then
        var e := SkipWhiteSpace(q[2 + |name|..]);
        if e != "" && e[0] == '>' then Done(Element(name, attributes, children), e[1..]) else Failed
      else Failed
    case Failed => Failed
    case Endless => Endless
    case Foreign => Foreign
  }

  // A text ends in front of the next tag; one that runs into the end of the input leaves its last character.
  function ParseText(p: string): (r: Option<(string, string)>)
    requires p != "" && p[0] != '<' && !IsWhiteSpace(p[0])
    ensures r.Some? ==> |r.value.1| <= |p|
  {
    match Condensed(p, false)
    case None => None
    case Some((v, q)) => Some((v, if q == "" then p[|p| - 1..] else q))
  }

  predicate Blank(s: string) {
    forall i | 0 <= i < |s| :: IsWhiteSpace(s[i])
  }

  // The children of an element, up to an end tag.
  function ReadValue(p: string, children: seq<XmlNode>): (r: Outcome<seq<XmlNode>>)
    ensures r.Done? ==> |r.rest| <= |p|
    decreases |p|, 2
  {
    ReadNodes(SkipWhiteSpace(p), children)
  }

  function ReadNodes(p: string, children: seq<XmlNode>): (r: Outcome<seq<XmlNode>>)
    requires p == "" || !IsWhiteSpace(p[0])
    ensures r.Done? ==> |r.rest| <= |p|
    decreases |p|, 1
  {
    if p == "" then Failed
    else if p[0] != '<' then
      match ParseText(p)
      case None => Failed
      case Some((v, q)) =>
        if |q| >= |p| then Endless else ReadValue(q, if Blank(v) then children else children + [Text(v)])
    else if StartsWith(p, "</") then Done(children, p)
    else if |p| > 1 && IsNameStart(p[1]) then
      match ParseElement(p)
      case Done(e, q) => ReadValue(q, children + [e])
      case Failed => Failed
      case Endless => Endless
      case Foreign => Foreign
    else Foreign
  }

  // The elements of a document.
  function ParseDocument(p: string, children: seq<XmlNode>): (r: Outcome<seq<XmlNode>>)
    decreases |p|, 1
  {
    ParseRoots(SkipWhiteSpace(p), children)
  }

  function ParseRoots(p: string, children: seq<XmlNode>): (r: Outcome<seq<XmlNode>>)
    decreases |p|, 0
  {
    if p == "" || p[0] != '<' then (if children == [] then Failed else Done(children, p))
    else if |p| > 1 && IsNameStart(p[1]) then
      match ParseElement(p)
      case Done(e, q) => ParseDocument(q, children + [e])
      case Failed => Failed
      case Endless => Endless
      case Foreign => Foreign
    else Foreign
  }

  // --- What is read back ---

  // What any tree that has been parsed is like: proper names, each attribute once, and texts that are not blank and not
  // next to each other.
  predicate Shaped(n: XmlNode)
    decreases n
  {
    match n
    case Text(v) => !Blank(v)
    case Element(name, attributes, children) =>
      && LegalName(name) && Named(attributes) && Spread(children)
      && forall i | 0 <= i < |children| :: Shaped(children[i])
  }

  predicate Named(attributes: seq<Attribute>) {
    && (forall i | 0 <= i < |attributes| :: LegalName(attributes[i].name))
    && forall i, j | 0 <= i < j < |attributes| :: attributes[i].name != attributes[j].name
  }

  // No two texts stand next to each other.
  predicate Spread(ns: seq<XmlNode>) {
    forall i | 0 <= i < |ns| - 1 :: ns[i].Element? || ns[i + 1].Element?
  }

  // Strings that are written as they are, or as references that are read back.
  predicate Clean(n: XmlNode)
    decreases n
  {
    match n
    case Text(v) => NoReference(v) && Spaced(v) && (v != "" ==> v[0] != ' ')
    case Element(_, attributes, children) =>
      && (forall i | 0 <= i < |attributes| :: NoReference(attributes[i].value))
      && forall i | 0 <= i < |children| :: Clean(children[i])
  }

  predicate Legal(n: XmlNode) {
    Shaped(n) && Clean(n)
  }

  // Only white space between the tags.
  predicate Spacing(l: Layout) {
    Blank(l.indent) && Blank(l.lineBreak)
  }
}
