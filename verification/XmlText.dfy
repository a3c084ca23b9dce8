// Characters, names and text of XML: how TinyXML writes them and how it reads them.  A char stands for one byte, and a pointer
// into the input for what is left of it.
module XmlText {
  import opened Basics

  predicate IsWhiteSpace(c: char) {
    c == ' ' || '\t' <= c <= '\r'
  }

  predicate IsAlpha(c: char) {
    if c as int < 127 then 'a' <= c <= 'z' || 'A' <= c <= 'Z' else true
  }

  predicate IsAlphaNum(c: char) {
    IsAlpha(c) || '0' <= c <= '9'
  }

  predicate IsNameStart(c: char) {
    IsAlpha(c) || c == '_'
  }

  predicate IsNameChar(c: char) {
    IsAlphaNum(c) || c == '_' || c == '-' || c == '.' || c == ':'
  }

  predicate StartsWith(p: string, tag: string) {
    |tag| <= |p| && p[..|tag|] == tag
  }

  // --- Writing ---

  function HexDigit(n: nat): char
    requires n < 16
  {
    if n < 10 then (n + '0' as int) as char else (n - 10 + 'A' as int) as char
  }

  function EncodeChar(c: char): (r: string)
    ensures r != "" && r[0] != '<' && (r[0] == '&' || (r == [c] && ' ' <= c))
    ensures c != ' ' ==> !IsWhiteSpace(r[0])
  {
    if c == '&' then "&amp;"
    else if c == '<' then "&lt;"
    else if c == '>' then "&gt;"
    else if c == '\"' then "&quot;"
    else if c == '\'' then "&apos;"
    else if c < ' ' then "&#x" + [HexDigit(c as int / 16), HexDigit(c as int % 16)] + ";"
    else [c]
  }

  // As far as a reference such as &#xA9; is passed through: up to its semicolon or the last character.
  function Passed(s: string, i: nat): (k: nat)
    requires i + 1 <= |s|
    decreases |s| - i
    ensures i <= k < |s|
  {
    if i + 1 < |s| then (if s[i + 1] == ';' then i + 1 else Passed(s, i + 1)) else i
  }

  // What is written is plain: no angle brackets, no quotes and no control characters, and an ampersand only in front of a name or
  // a number.
  predicate Plain(c: char) {
    c != '<' && c != '>' && c != '\"' && c != '\'' && c >= ' '
  }

  lemma CharPlain(c: char)
    ensures var e := EncodeChar(c); forall i | 0 <= i < |e| :: Plain(e[i]) && (e[i] == '&' ==> i == 0 && |e| > 3 && e[|e| - 1] == ';')
  {
  }

  function Encode(s: string): string {
    if s == "" then ""
    else if StartsWith(s, "&#x") then s[..Passed(s, 0)] + Encode(s[Passed(s, 0)..])
    else EncodeChar(s[0]) + Encode(s[1..])
  }

  // --- Reading ---

  function SkipWhiteSpace(p: string): (r: string)
    ensures |r| <= |p| && r == p[|p| - |r|..] && (r != "" ==> !IsWhiteSpace(r[0]))
  {
    if p != "" && IsWhiteSpace(p[0]) then SkipWhiteSpace(p[1..]) else p
  }

  function NameLength(p: string): (k: nat)
    ensures k <= |p|
  {
    if p != "" && IsNameChar(p[0]) then 1 + NameLength(p[1..]) else 0
  }

  function ReadName(p: string): (r: Option<(string, string)>)
    ensures r.Some? ==> |r.value.1| < |p|
  {
    if p != "" && IsNameStart(p[0]) then Some((p[..NameLength(p)], p[NameLength(p)..])) else None
  }

  // Where the first semicolon is.
  function Semicolon(p: string): (k: Option<nat>)
    ensures k.Some? ==> k.value < |p| && p[k.value] == ';'
  {
    if p == "" then None
    else if p[0] == ';' then Some(0)
    else match Semicolon(p[1..]) case None => None case Some(k) => Some(k + 1)
  }

  function HexValue(c: char): Option<nat> {
    if '0' <= c <= '9' then Some(c as int - '0' as int)
    else if 'a' <= c <= 'f' then Some(c as int - 'a' as int + 10)
    else if 'A' <= c <= 'F' then Some(c as int - 'A' as int + 10)
    else None
  }

  function DecimalValue(c: char): Option<nat> {
    if '0' <= c <= '9' then Some(c as int - '0' as int) else None
  }

  // The number in some digits, read from the end back to the mark in front of them.
  function Number(t: string, mark: char): Option<nat> {
    if t == "" || t[|t| - 1] == mark then Some(0)
    else
      var hex := mark == 'x';
      match (if hex then HexValue(t[|t| - 1]) else DecimalValue(t[|t| - 1]), Number(t[..|t| - 1], mark))
      case (Some(d), Some(n)) => Some(n * (if hex then 16 else 10) + d)
      case _ => None
  }

  // A numeric reference; only the low byte of the number counts.
  function Reference(p: string, start: nat, mark: char): (r: Option<(string, string)>)
    requires start < |p|
    ensures r.Some? ==> |r.value.1| < |p|
  {
    match Semicolon(p[start..])
    case None => None
    case Some(k) =>
      match Number(p[start..start + k], mark)
      case None => None
      case Some(n) => Some(([(n % 256) as char], p[start + k + 1..]))
  }

  // What is read at an ampersand, and what is left; an unknown entity loses its ampersand.
  function GetEntity(p: string): (r: Option<(string, string)>)
    requires p != ""
    ensures r.Some? ==> |r.value.1| < |p|
  {
    if |p| > 2 && p[1] == '#' then
      if p[2] == 'x' then (if |p| > 3 then Reference(p, 3, 'x') else None) else Reference(p, 2, '#')
    else if StartsWith(p, "&amp;") then Some(("&", p[5..]))
    else if StartsWith(p, "&lt;") then Some(("<", p[4..]))
    else if StartsWith(p, "&gt;") then Some((">", p[4..]))
    else if StartsWith(p, "&quot;") then Some(("\"", p[6..]))
    else if StartsWith(p, "&apos;") then Some(("'", p[6..]))
    else Some(("", p[1..]))
  }

  function GetChar(p: string): (r: Option<(string, string)>)
    requires p != ""
    ensures r.Some? ==> |r.value.1| < |p|
  {
    if p[0] == '&' then GetEntity(p) else Some(([p[0]], p[1..]))
  }

  // Read up to a delimiter, and keep the white space.
  function Kept(p: string, end: char): (r: Option<(string, string)>)
    ensures r.Some? ==> |r.value.1| <= |p|
    decreases |p|
  {
    if p == "" then Some(("", "")) else if p[0] == end then Some(("", p[1..]))
    else match GetChar(p)
         case None => None
         case Some(c) => Before(c.0, Kept(c.1, end))
  }

  function Before(t: string, r: Option<(string, string)>): Option<(string, string)> {
    match r case None => None case Some(x) => Some((t + x.0, x.1))
  }

  // Read up to a tag, and condense the white space to single spaces between words.
  function Condensed(p: string, space: bool): (r: Option<(string, string)>)
    ensures r.Some? ==> |r.value.1| <= |p| && (r.value.1 != "" ==> r.value.1[0] == '<')
    ensures r.Some? && p != "" && p[0] != '<' ==> |r.value.1| < |p|
    decreases |p|
  {
    if p == "" || p[0] == '<' then Some(("", p))
    else if IsWhiteSpace(p[0]) then Condensed(p[1..], true)
    else match GetChar(p)
         case None => None
         case Some(c) => Before(if space then " " + c.0 else c.0, Condensed(c.1, false))
  }

  // --- What is left ---

  // What is left after a character is the end of what there was.
  lemma CharLeft(p: string)
    requires p != ""
    ensures var c := GetChar(p); c.Some? ==> c.value.1 == p[|p| - |c.value.1|..]
  {
    hide Number, Semicolon;
  }

  // What is left is the end of what there was.
  lemma {:induction false} SuffixLeft(p: string, space: bool)
    ensures var r := Condensed(p, space); r.Some? ==> r.value.1 == p[|p| - |r.value.1|..]
    decreases |p|
  {
    hide GetEntity, IsWhiteSpace;
    if p != "" && p[0] != '<' {
      if IsWhiteSpace(p[0]) {
        SuffixLeft(p[1..], true);
      } else {
        var c := GetChar(p);
        if c.Some? {
          CharLeft(p);
          SuffixLeft(c.value.1, false);
        }
      }
    }
  }

  lemma NothingSkipped(p: string)
    requires p != "" && !IsWhiteSpace(p[0])
    ensures SkipWhiteSpace(p) == p
  {
  }

  // The first semicolon is where it is, whatever comes after it.
  lemma {:induction false} SemicolonAt(a: string, p: string)
    requires forall i | 0 <= i < |a| :: a[i] != ';'
    ensures Semicolon(a + [';'] + p) == Some(|a|)
    ensures Semicolon(a + p) == match Semicolon(p) case None => None case Some(k) => Some(|a| + k)
  {
    if a == "" {
      assert a + [';'] + p == [';'] + p && a + p == p;
    } else {
      assert (a + [';'] + p)[1..] == a[1..] + [';'] + p && (a + p)[1..] == a[1..] + p;
      SemicolonAt(a[1..], p);
    }
  }

  // --- What is read back ---

  predicate LegalName(s: string) {
    s != "" && IsNameStart(s[0]) && forall i | 0 <= i < |s| :: IsNameChar(s[i])
  }

  // Nowhere in s does a hexadecimal reference begin.
  predicate NoReference(s: string) {
    forall i | 0 <= i <= |s| :: !StartsWith(s[i..], "&#x")
  }

  // Words with single spaces between them, and none at the end.
  predicate Spaced(s: string) {
    && (s != "" ==> s[|s| - 1] != ' ')
    && forall i | 0 <= i < |s| - 1 :: s[i] == ' ' ==> s[i + 1] != ' '
  }

  lemma {:induction false} SkipSpaces(ws: string, p: string)
    requires forall i | 0 <= i < |ws| :: IsWhiteSpace(ws[i])
    ensures SkipWhiteSpace(ws + p) == SkipWhiteSpace(p)
  {
    if ws == "" {
      assert ws + p == p;
    } else {
      assert (ws + p)[1..] == ws[1..] + p;
      SkipSpaces(ws[1..], p);
    }
  }

  lemma {:induction false} NameRead(n: string, p: string)
    requires (forall i | 0 <= i < |n| :: IsNameChar(n[i])) && (p == "" || !IsNameChar(p[0]))
    ensures NameLength(n + p) == |n|
  {
    if n == "" {
      assert n + p == p;
    } else {
      assert (n + p)[1..] == n[1..] + p;
      NameRead(n[1..], p);
    }
  }

  lemma LegalNameRead(n: string, p: string)
    requires LegalName(n) && (p == "" || !IsNameChar(p[0]))
    ensures ReadName(n + p) == Some((n, p))
  {
    NameRead(n, p);
    assert (n + p)[..|n|] == n && (n + p)[|n|..] == p;
  }

  // A legal name is written as it is.
  lemma {:induction false} NameWritten(n: string)
    requires forall i | 0 <= i < |n| :: IsNameChar(n[i])
    ensures Encode(n) == n
  {
    hide IsNameChar, EncodeChar, StartsWith;
    if n != "" {
      NameCharWritten(n[0]);
      NotReference(n);
      NameWritten(n[1..]);
      assert n == [n[0]] + n[1..];
    }
  }

  lemma NotReference(s: string)
    requires s != "" && s[0] != '&'
    ensures !StartsWith(s, "&#x")
  {
    if |s| >= 3 { assert s[..3][0] == s[0]; }
  }

  lemma NameCharWritten(c: char)
    requires IsNameChar(c)
    ensures c != '&' && EncodeChar(c) == [c]
  {
  }

  // Whatever follows, a character that has been written is read back.
  lemma CharRead(c: char, p: string)
    ensures GetChar(EncodeChar(c) + p) == Some(([c], p))
  {
    var e := EncodeChar(c);
    var q := e + p;
    assert q[..|e|] == e && q[|e|..] == p;
    if c < ' ' && c != '&' && c != '<' && c != '>' && c != '\"' && c != '\'' {
      ReferenceRead(c as int, p);
    } else if c == '&' { assert StartsWith(q, "&amp;"); }
    else if c == '<' { assert StartsWith(q, "&lt;"); }
    else if c == '>' { assert StartsWith(q, "&gt;"); }
    else if c == '\"' { assert StartsWith(q, "&quot;"); }
    else if c == '\'' { 
      assert q[2] == 'p' && "&amp;"[2] == 'm';
      assert StartsWith(q, "&apos;");
    }
  }

  lemma ReferenceRead(n: nat, p: string)
    requires n < 32
    ensures var q := "&#x" + [HexDigit(n / 16), HexDigit(n % 16)] + ";" + p; Reference(q, 3, 'x') == Some(([n as char], p))
  {
    var h, l := HexDigit(n / 16), HexDigit(n % 16);
    var q := "&#x" + [h, l] + ";" + p;
    assert q[3..] == [h, l, ';'] + p;
    SemicolonThird(h, l, p);
    assert q[3..5] == [h, l] && q[6..] == p;
    TwoDigits(n);
  }

  lemma SemicolonThird(h: char, l: char, p: string)
    requires h != ';' && l != ';'
    ensures Semicolon([h, l, ';'] + p) == Some(2)
  {
    var q := [h, l, ';'] + p;
    assert q[1..] == [l, ';'] + p && q[1..][1..] == [';'] + p;
    assert Semicolon([';'] + p) == Some(0);
    assert Semicolon([l, ';'] + p) == Some(1);
  }

  lemma TwoDigits(n: nat)
    requires n < 32
    ensures Number([HexDigit(n / 16), HexDigit(n % 16)], 'x') == Some(n)
  {
    var h, l := HexDigit(n / 16), HexDigit(n % 16);
    assert [h, l][..1] == [h] && [h][..0] == "";
    DigitRead(n / 16);
    DigitRead(n % 16);
    assert Number([h], 'x') == Some(n / 16);
  }

  lemma DigitRead(n: nat)
    requires n < 16
    ensures HexValue(HexDigit(n)) == Some(n) && HexDigit(n) != 'x'
  {
  }

  // An attribute's value between quotes is read back.
  lemma {:induction false} KeptRead(s: string, end: char, p: string)
    requires NoReference(s) && (end == '\"' || end == '\'')
    ensures Kept(Encode(s) + [end] + p, end) == Some((s, p))
  {
    hide GetChar;
    if s == "" {
      assert Encode(s) + [end] + p == [end] + p;
    } else {
      assert s[0..] == s;
      var rest := Encode(s[1..]) + [end] + p;
      assert Encode(s) + [end] + p == EncodeChar(s[0]) + rest;
      CharRead(s[0], rest);
      StillNoReference(s);
      KeptRead(s[1..], end, p);
      EncodedNotQuote(s[0]);
      assert s == [s[0]] + s[1..];
    }
  }

  lemma EncodedNotQuote(c: char)
    ensures EncodeChar(c)[0] != '\"' && EncodeChar(c)[0] != '\''
  {
  }

  lemma StillNoReference(s: string)
    requires NoReference(s) && s != ""
    ensures NoReference(s[1..])
  {
    forall i | 0 <= i <= |s| - 1
      ensures !StartsWith(s[1..][i..], "&#x")
    {
      assert s[1..][i..] == s[i + 1..];
    }
  }

  // A text is read back, up to the next tag.
  lemma {:induction false} CondensedRead(s: string, space: bool, ws: string, p: string)
    requires NoReference(s) && Spaced(s) && p != "" && p[0] == '<' && (space ==> s != "" && s[0] != ' ')
    requires forall i | 0 <= i < |ws| :: IsWhiteSpace(ws[i])
    ensures Condensed(Encode(s) + ws + p, space) == Some((if space then " " + s else s, p))
  {
    hide GetChar;
    if s == "" {
      assert Encode(s) + ws + p == ws + p;
      OnlySpaces(ws, space, p);
    } else {
      assert s[0..] == s;
      StillNoReference(s);
      var rest := Encode(s[1..]) + ws + p;
      assert Encode(s) + ws + p == EncodeChar(s[0]) + rest;
      assert s == [s[0]] + s[1..];
      if s[0] == ' ' {
        assert (EncodeChar(s[0]) + rest)[1..] == rest;
        CondensedRead(s[1..], true, ws, p);
      } else {
        CharRead(s[0], rest);
        CondensedRead(s[1..], false, ws, p);
        assert " " + [s[0]] + s[1..] == " " + s;
      }
    }
  }

  lemma {:induction false} OnlySpaces(ws: string, space: bool, p: string)
    requires p != "" && p[0] == '<' && forall i | 0 <= i < |ws| :: IsWhiteSpace(ws[i])
    ensures Condensed(ws + p, space) == Some(("", p))
  {
    if ws == "" {
      assert ws + p == p;
    } else {
      assert (ws + p)[1..] == ws[1..] + p;
      OnlySpaces(ws[1..], true, p);
    }
  }

  lemma {:induction false} AllPlain(s: string)
    requires NoReference(s)
    ensures forall i | 0 <= i < |Encode(s)| :: Plain(Encode(s)[i])
  {
    hide EncodeChar, Plain;
    if s != "" {
      assert s[0..] == s;
      CharPlain(s[0]);
      StillNoReference(s);
      AllPlain(s[1..]);
    }
  }
}
