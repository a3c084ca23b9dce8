// The printer, which walks a tree and appends to its buffer.
module XmlPrinter {
  import opened Basics
  import opened XmlText
  import opened XmlTree

  // Append s with its special characters written as entities; references are passed through.
  method EncodeString(s: string, outString: string) returns (r: string)
    ensures r == outString + Encode(s)
  {
    hide EncodeChar, Passed, StartsWith, Encode;
    r := outString;
    var i := 0;
    assert s[0..] == s;
    while i < |s|
      invariant i <= |s| && r + Encode(s[i..]) == outString + Encode(s)
    {
      ghost var before, j := r, i;
      ReferenceAt(s, i);
      EncodeStep(s[i..]);
      if i + 2 < |s| && s[i] == '&' && s[i + 1] == '#' && s[i + 2] == 'x' {
        r, i := PassThrough(s, i, r);
        assert s[j..][..i - j] == s[j..i] && s[j..][i - j..] == s[i..];
        assert r + Encode(s[i..]) == before + (s[j..i] + Encode(s[i..]));
      } else {
        r := r + EncodeChar(s[i]);
        i := i + 1;
        assert s[j..][1..] == s[i..] && s[j..][0] == s[j];
        assert r + Encode(s[i..]) == before + (EncodeChar(s[j]) + Encode(s[i..]));
      }
    }
    EncodedNothing();
    assert s[i..] == "" && r + "" == r;
  }

  // Copy a reference as it is, up to its semicolon or the last character.
  method PassThrough(s: string, start: nat, outString: string) returns (r: string, i: nat)
    requires start + 1 < |s|
    ensures start < i < |s| && i - start == Passed(s[start..], 0) && r == outString + s[start..i]
  {
    r, i := outString, start;
    PassedFrom(s, start, 0);
    while i + 1 < |s|
      invariant start <= i < |s| && r == outString + s[start..i] && Passed(s, i) == Passed(s, start)
    {
      r := r + [s[i]];
      i := i + 1;
      if s[i] == ';' { break; }
    }
  }

  lemma ReferenceAt(s: string, i: nat)
    requires i < |s|
    ensures StartsWith(s[i..], "&#x") <==> i + 2 < |s| && s[i] == '&' && s[i + 1] == '#' && s[i + 2] == 'x'
  {
    var t := s[i..];
    if |t| >= 3 { assert t[..3] == [s[i], s[i + 1], s[i + 2]]; }
  }

  lemma EncodeStep(s: string)
    requires s != ""
    ensures Encode(s) == if StartsWith(s, "&#x") then s[..Passed(s, 0)] + Encode(s[Passed(s, 0)..]) else EncodeChar(s[0]) + Encode(s[1..])
  {
  }

  lemma EncodedNothing()
    ensures Encode("") == ""
  {
  }

  lemma {:induction false} PassedFrom(s: string, i: nat, k: nat)
    requires i + k + 1 <= |s|
    ensures Passed(s[i..], k) == Passed(s, i + k) - i
    decreases |s| - k
  {
    if i + k + 1 < |s| && s[i + k + 1] != ';' { PassedFrom(s, i, k + 1); }
  }

  class Printer {
    const layout: Layout
    var depth: nat
    var simpleTextPrint: bool
    var buffer: string

    constructor (l: Layout)
      ensures layout == l && depth == 0 && !simpleTextPrint && buffer == ""
    {
      layout := l;
      depth, simpleTextPrint, buffer := 0, false, "";
    }

    method DoIndent()
      modifies `buffer
      ensures buffer == old(buffer) + Indent(layout, depth)
    {
      var i := 0;
      while i < depth
        invariant i <= depth && buffer + Indent(layout, depth - i) == old(buffer) + Indent(layout, depth)
      {
        ghost var b := buffer;
        buffer := buffer + layout.indent;
        i := i + 1;
        assert b + (layout.indent + Indent(layout, depth - i)) == buffer + Indent(layout, depth - i);
      }
    }

    method DoLineBreak()
      modifies `buffer
      ensures buffer == old(buffer) + layout.lineBreak
    {
      buffer := buffer + layout.lineBreak;
    }

    method PrintOne(a: Attribute)
      modifies `buffer
      ensures buffer == old(buffer) + PrintAttribute(a)
    {
      hide Encode;
      var n := EncodeString(a.name, "");
      var v := EncodeString(a.value, "");
      if '\"' !in a.value {
        buffer := buffer + n + "=\"" + v + "\"";
      } else {
        buffer := buffer + n + "='" + v + "'";
      }
    }

    method Attributes(attributes: seq<Attribute>)
      modifies `buffer
      ensures buffer == old(buffer) + PrintAttributes(attributes)
    {
      hide PrintAttribute;
      var i := 0;
      assert attributes[0..] == attributes;
      while i < |attributes|
        invariant i <= |attributes| && buffer + PrintAttributes(attributes[i..]) == old(buffer) + PrintAttributes(attributes)
      {
        ghost var b, rest := buffer, PrintAttributes(attributes[i + 1..]);
        assert attributes[i..][1..] == attributes[i + 1..];
        buffer := buffer + " ";
        PrintOne(attributes[i]);
        i := i + 1;
        assert b + (" " + PrintAttribute(attributes[i - 1]) + rest) == buffer + rest;
      }
    }

    method VisitEnter(n: XmlNode)
      requires n.Element? && !simpleTextPrint
      modifies `buffer, `depth, `simpleTextPrint
      ensures depth == old(depth) + 1 && simpleTextPrint == Simple(n)
      ensures buffer == old(buffer) + Indent(layout, old(depth)) + "<" + n.name + PrintAttributes(n.attributes) +
                        if n.children == [] then " />" + layout.lineBreak else ">" + Break(layout, n)
    {
      DoIndent();
      buffer := buffer + "<" + n.name;
      Attributes(n.attributes);
      if n.children == [] {
        buffer := buffer + " />";
        DoLineBreak();
      } else {
        buffer := buffer + ">";
        if n.children[0].Text? && |n.children| == 1 {
          simpleTextPrint := true;
        } else {
          DoLineBreak();
        }
      }
      depth := depth + 1;
    }

    method VisitExit(n: XmlNode)
      requires n.Element? && depth > 0 && simpleTextPrint == Simple(n)
      modifies `buffer, `depth, `simpleTextPrint
      ensures depth == old(depth) - 1 && !simpleTextPrint
      ensures buffer == old(buffer) + if n.children == [] then "" else Margin(layout, depth, n) + "</" + n.name + ">" + layout.lineBreak
    {
      depth := depth - 1;
      if n.children != [] {
        if simpleTextPrint {
          simpleTextPrint := false;
        } else {
          DoIndent();
        }
        buffer := buffer + "</" + n.name + ">";
        DoLineBreak();
      }
    }

    method Visit(n: XmlNode)
      requires n.Text?
      modifies `buffer
      ensures buffer == old(buffer) + PrintNode(layout, depth, simpleTextPrint, n)
    {
      hide Encode;
      if simpleTextPrint {
        var s := EncodeString(n.value, "");
        buffer := buffer + s;
      } else {
        DoIndent();
        var s := EncodeString(n.value, "");
        buffer := buffer + s;
        DoLineBreak();
      }
    }

    // Walk a tree.
    method Accept(n: XmlNode)
      requires n.Element? ==> !simpleTextPrint
      modifies `buffer, `depth, `simpleTextPrint
      ensures depth == old(depth) && simpleTextPrint == old(simpleTextPrint)
      ensures buffer == old(buffer) + PrintNode(layout, depth, simpleTextPrint, n)
      decreases n
    {
      if n.Text? { Visit(n); return; }
      hide PrintAttributes, PrintNodes, Break, Margin, Indent;
      ghost var start, d := buffer, depth;
      VisitEnter(n);
      AcceptChildren(n.children);
      VisitExit(n);
      PrintedInParts(layout, d, n, start, buffer);
    }

    method AcceptChildren(ns: seq<XmlNode>)
      requires simpleTextPrint ==> forall i | 0 <= i < |ns| :: ns[i].Text?
      modifies `buffer, `depth, `simpleTextPrint
      ensures depth == old(depth) && simpleTextPrint == old(simpleTextPrint)
      ensures buffer == old(buffer) + PrintNodes(layout, depth, simpleTextPrint, ns)
      decreases ns
    {
      hide PrintNode;
      var i := 0;
      assert ns[0..] == ns;
      while i < |ns|
        invariant i <= |ns| && depth == old(depth) && simpleTextPrint == old(simpleTextPrint)
        invariant buffer + PrintNodes(layout, depth, simpleTextPrint, ns[i..]) ==
                  old(buffer) + PrintNodes(layout, depth, simpleTextPrint, ns)
      {
        ghost var b, rest := buffer, PrintNodes(layout, depth, simpleTextPrint, ns[i + 1..]);
        assert ns[i..][1..] == ns[i + 1..];
        Accept(ns[i]);
        assert b + (PrintNode(layout, depth, simpleTextPrint, ns[i]) + rest) == buffer + rest;
        i := i + 1;
      }
    }
  }

  lemma PrintedInParts(l: Layout, d: nat, n: XmlNode, before: string, after: string)
    requires n.Element?
    requires var head := before + Indent(l, d) + "<" + n.name + PrintAttributes(n.attributes) +
                         if n.children == [] then " />" + l.lineBreak else ">" + Break(l, n);
             after == head + PrintNodes(l, d + 1, Simple(n), n.children) +
                      if n.children == [] then "" else Margin(l, d, n) + "</" + n.name + ">" + l.lineBreak
    ensures after == before + PrintNode(l, d, false, n)
  {
    hide PrintAttributes, PrintNodes, Break, Margin, Indent, Simple;
    var ind, open := Indent(l, d), "<" + n.name + PrintAttributes(n.attributes);
    assert before + ind + "<" + n.name + PrintAttributes(n.attributes) == before + ind + open;
    if n.children == [] {
      NothingPrinted(l, d + 1, Simple(n));
      Joined(before, ind, open, " />", l.lineBreak);
    } else {
      var b, ns, m, end := Break(l, n), PrintNodes(l, d + 1, Simple(n), n.children), Margin(l, d, n), "</" + n.name + ">";
      Inner(before + ind + open, ">", b, ns, m, end, l.lineBreak);
      assert m + "</" + n.name + ">" == m + end && ">" + b + ns + m + "</" + n.name + ">" == ">" + b + ns + m + end;
      Joined(before, ind, open, ">" + b + ns + m + end, l.lineBreak);
    }
  }

  lemma NothingPrinted(l: Layout, d: nat, inLine: bool)
    ensures PrintNodes(l, d, inLine, []) == ""
  {
  }

  lemma Joined(before: string, ind: string, open: string, body: string, lb: string)
    ensures before + ind + open + (body + lb) == before + (ind + (open + body) + lb)
  {
  }

  lemma Inner(head: string, gt: string, b: string, ns: string, m: string, end: string, lb: string)
    ensures head + (gt + b) + ns + (m + end + lb) == head + ((gt + b + ns + m + end) + lb)
  {
  }
}
