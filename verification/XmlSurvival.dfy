// Which strings survive writing and reading: what a hexadecimal reference in one does to it, and white space to a text.
module XmlSurvival {
  import opened Basics
  import opened XmlText

  // Both ways to read: an attribute's value up to its quote and past it, or a text up to the next tag, with its white space
  // condensed; space says whether some has been seen.
  function Read(q: string, end: char, trim: bool, space: bool): Option<(string, string)> {
    if trim then Condensed(q, space) else Kept(q, end)
  }

  predicate Delimiter(end: char, trim: bool) {
    if trim then end == '<' else end == '\"' || end == '\''
  }

  function Pending(trim: bool, space: bool): nat {
    if trim && space then 1 else 0
  }

  lemma OneChar(q: string)
    requires q != ""
    ensures var c := GetChar(q); c.Some? ==> |c.value.0| <= 1
  {
    hide Semicolon, Number;
  }

  // One character is read, and a space in front of it if there has been white space.
  lemma {:induction false} Step(q: string, end: char, trim: bool, space: bool)
    requires Delimiter(end, trim) && q != "" && q[0] != end && (trim ==> !IsWhiteSpace(q[0]))
    ensures Read(q, end, trim, space) ==
            match GetChar(q)
            case None => None
            case Some(c) => Before(if trim && space then " " + c.0 else c.0, Read(c.1, end, trim, false))
  {
    hide GetChar;
  }

  lemma {:induction false} SpaceStep(q: string, space: bool)
    requires q != "" && IsWhiteSpace(q[0])
    ensures Read(q, '<', true, space) == Read(q[1..], '<', true, true)
  {
  }

  lemma {:induction false} AtEnd(q: string, end: char, trim: bool, space: bool)
    requires Delimiter(end, trim) && (q == "" || q[0] == end)
    ensures Read(q, end, trim, space) == Some(("", if trim || q == "" then q else q[1..]))
  {
  }

  // Reading gives no more than it takes.
  lemma {:induction false} Shrinks(q: string, end: char, trim: bool, space: bool)
    requires Delimiter(end, trim)
    ensures var r := Read(q, end, trim, space); r.Some? ==> |r.value.0| + |r.value.1| <= |q| + Pending(trim, space) && |r.value.1| <= |q|
    decreases |q|
  {
    hide GetChar, IsWhiteSpace, Read;
    if q == "" || q[0] == end {
      AtEnd(q, end, trim, space);
    } else if trim && IsWhiteSpace(q[0]) {
      SpaceStep(q, space);
      Shrinks(q[1..], end, trim, true);
    } else {
      Step(q, end, trim, space);
      OneChar(q);
      var c := GetChar(q);
      if c.Some? { Shrinks(c.value.1, end, trim, false); }
    }
  }

  lemma {:induction false} PassedTo(s: string, i: nat)
    requires i + 1 <= |s|
    ensures var k := Passed(s, i); (forall j | i < j < k :: s[j] != ';') && (s[k] == ';' || k == |s| - 1 || k == i)
    ensures Passed(s, i) == i ==> i == |s| - 1
    decreases |s| - i
  {
    if i + 1 < |s| && s[i + 1] != ';' { PassedTo(s, i + 1); }
  }

  // What has been read of s, in front of a tail, is not more than s, and what is left is not more than the tail.
  ghost predicate NotMore(s: string, tail: string, end: char, trim: bool, space: bool) {
    var r := Read(Encode(s) + tail, end, trim, space);
    r.Some? ==>
      && |r.value.0| + |r.value.1| <= |s| + |tail| + Pending(trim, space) - (if trim then 0 else 1)
      && |r.value.1| <= |tail|
  }

  ghost predicate Fewer(s: string, tail: string, end: char, trim: bool, space: bool) {
    var r := Read(Encode(s) + tail, end, trim, space);
    r.Some? ==>
      && |r.value.0| + |r.value.1| < |s| + |tail| + Pending(trim, space) - (if trim then 0 else 1)
      && |r.value.1| <= |tail|
  }

  predicate Tail(tail: string, end: char, trim: bool) {
    Delimiter(end, trim) && tail != "" && tail[0] == end
  }

  // What is to come after a reference at the head of what is read.
  lemma {:induction false} ReferenceTaken(q: string, end: char, trim: bool, space: bool, rest: string, k: nat)
    requires |q| > 3 && StartsWith(q, "&#x") && Delimiter(end, trim) && Semicolon(q[3..]) == Some(k) && q[k + 4..] == rest
    ensures var r, x := Read(q, end, trim, space), Read(rest, end, trim, false);
            r.Some? ==> x.Some? && |r.value.0| <= 1 + Pending(trim, space) + |x.value.0| && r.value.1 == x.value.1
  {
    hide GetEntity, Semicolon, Read;
    assert q[..3][0] == q[0];
    Step(q, end, trim, space);
    CharTaken(q, rest, k);
  }

  lemma {:induction false} CharTaken(q: string, rest: string, k: nat)
    requires |q| > 3 && StartsWith(q, "&#x") && Semicolon(q[3..]) == Some(k) && q[k + 4..] == rest
    ensures var c := GetChar(q); c.Some? ==> |c.value.0| == 1 && c.value.1 == rest
  {
    hide Number;
    assert q[..3][0] == q[0] && q[..3][1] == q[1] && q[..3][2] == q[2];
  }

  lemma {:induction false} NoSemicolon(q: string, end: char, trim: bool, space: bool)
    requires |q| > 3 && StartsWith(q, "&#x") && Delimiter(end, trim) && Semicolon(q[3..]) == None
    ensures Read(q, end, trim, space) == None
  {
    assert q[..3][0] == q[0] && q[..3][1] == q[1] && q[..3][2] == q[2];
  }

  lemma {:induction false} FewerAfterReference(s: string, tail: string, end: char, trim: bool, space: bool)
    requires StartsWith(s, "&#x") && Tail(tail, end, trim)
    requires var k := Passed(s, 0); s[k] == ';' ==> NotMore(s[k + 1..], tail, end, trim, false)
    ensures Fewer(s, tail, end, trim, space)
  {
    hide Tail, NotMore, Fewer;
    var k := Passed(s, 0);
    PassedTo(s, 0);
    assert s[..3][0] == '&' && s[..3][1] == '#' && s[..3][2] == 'x';
    assert s[1] == '#' && s[2] == 'x';
    if s[k] == ';' {
      SemicolonInside(s, k, tail, end, trim, space);
    } else {
      SemicolonOutside(s, k, tail, end, trim, space);
    }
  }

  // How a string with a reference at its head is written.
  lemma {:induction false} Raw(s: string, k: nat, tail: string)
    requires StartsWith(s, "&#x") && k == Passed(s, 0) && 3 <= k < |s|
    ensures var q := Encode(s) + tail; |q| > 3 && StartsWith(q, "&#x") && q[3..] == s[3..k] + (Encode(s[k..]) + tail)
  {
    hide EncodeChar, Passed;
    var q := Encode(s) + tail;
    assert q == s[..k] + (Encode(s[k..]) + tail);
    assert q[..3] == s[..3];
    if s[k..] != "" { EncodedSome(s[k..]); }
  }

  lemma EncodedSome(s: string)
    requires s != ""
    ensures Encode(s) != ""
  {
  }

  lemma {:induction false} SemicolonInside(s: string, k: nat, tail: string, end: char, trim: bool, space: bool)
    requires StartsWith(s, "&#x") && Tail(tail, end, trim) && k == Passed(s, 0) && 3 <= k < |s| && s[k] == ';'
    requires forall j | 0 < j < k :: s[j] != ';'
    requires NotMore(s[k + 1..], tail, end, trim, false)
    ensures Fewer(s, tail, end, trim, space)
  {
    hide Read, Semicolon, Encode, Passed, StartsWith;
    var q, rest := Encode(s) + tail, Encode(s[k + 1..]) + tail;
    Raw(s, k, tail);
    EncodedSemicolon(s[k..]);
    assert s[k..][1..] == s[k + 1..];
    assert q[3..] == s[3..k] + [';'] + rest;
    SemicolonAt(s[3..k], rest);
    assert q[k + 1..] == q[3..][k - 2..] == rest;
    ReferenceTaken(q, end, trim, space, rest, k - 3);
  }

  lemma EncodedSemicolon(s: string)
    requires s != "" && s[0] == ';'
    ensures Encode(s) == [';'] + Encode(s[1..])
  {
    NotReference(s);
  }

  lemma LastEncoded(s: string, k: nat)
    requires k == |s| - 1
    ensures Encode(s[k..]) == EncodeChar(s[k])
  {
    hide EncodeChar;
    assert s[k..] == [s[k]] && s[k..][1..] == "";
    assert EncodeChar(s[k]) + "" == EncodeChar(s[k]);
  }

  lemma {:induction false} SemicolonOutside(s: string, k: nat, tail: string, end: char, trim: bool, space: bool)
    requires StartsWith(s, "&#x") && Tail(tail, end, trim) && k == Passed(s, 0) == |s| - 1 && 2 <= k && s[2] == 'x' && s[k] != ';'
    requires forall j | 0 < j < k :: s[j] != ';'
    ensures Fewer(s, tail, end, trim, space)
  {
    hide Read, Semicolon, Encode, Passed, StartsWith, EncodeChar;
    LastEncoded(s, k);
    EncodedEnds(s[k]);
    var e := EncodeChar(s[k]);
    if k == 2 {
      Bare(s, tail);
      LastPlain(s, k, tail, end, trim, space);
    } else {
      Raw(s, k, tail);
      if |e| > 1 {
        LastEscaped(s, k, e, tail, end, trim, space);
      } else {
        assert s[3..k] + ([s[k]] + tail) == s[3..] + tail;
        LastPlain(s, k, tail, end, trim, space);
      }
    }
  }

  // The beginning of a reference, and nothing else.
  lemma {:induction false} Bare(s: string, tail: string)
    requires StartsWith(s, "&#x") && |s| == 3 && tail != ""
    ensures var q := Encode(s) + tail; |q| > 3 && StartsWith(q, "&#x") && q[3..] == s[3..] + tail
  {
    assert s[..3] == s && s[2] == "&#x"[2];
    assert Passed(s, 0) == 2;
    LastEncoded(s, 2);
    assert s[..2] + [s[2]] == s;
    var q := Encode(s) + tail;
    assert q == s + tail && q[..3] == s;
  }

  lemma {:induction false} LastEscaped(s: string, k: nat, e: string, tail: string, end: char, trim: bool, space: bool)
    requires Tail(tail, end, trim) && 3 <= k == |s| - 1 && |e| > 1 && e[|e| - 1] == ';'
    requires (forall j | 0 < j < k :: s[j] != ';') && (forall i | 0 <= i < |e| - 1 :: e[i] != ';')
    requires var q := Encode(s) + tail; |q| > 3 && StartsWith(q, "&#x") && q[3..] == s[3..k] + (e + tail)
    ensures Fewer(s, tail, end, trim, space)
  {
    hide Read, Semicolon, Encode, StartsWith;
    var q, a := Encode(s) + tail, s[3..k] + e[..|e| - 1];
    assert q[3..] == a + [';'] + tail;
    SemicolonAt(a, tail);
    assert q[|a| + 4..] == q[3..][|a| + 1..] == tail;
    ReferenceTaken(q, end, trim, space, tail, |a|);
    AtEnd(tail, end, trim, false);
  }

  lemma {:induction false} LastPlain(s: string, k: nat, tail: string, end: char, trim: bool, space: bool)
    requires Tail(tail, end, trim) && 2 <= k == |s| - 1 && s[k] != ';' && forall j | 0 < j < k :: s[j] != ';'
    requires var q := Encode(s) + tail; |q| > 3 && StartsWith(q, "&#x") && q[3..] == s[3..] + tail
    ensures Fewer(s, tail, end, trim, space)
  {
    hide Read, Semicolon, Encode, StartsWith;
    var q, a, p := Encode(s) + tail, s[3..] + [end], tail[1..];
    assert q[3..] == a + p;
    SemicolonAt(a, p);
    match Semicolon(p)
    case None => NoSemicolon(q, end, trim, space);
    case Some(j) =>
      assert q[|a| + j + 4..] == q[3..][|a| + j + 1..] == p[j + 1..];
      ReferenceTaken(q, end, trim, space, p[j + 1..], |a| + j);
      Shrinks(p[j + 1..], end, trim, false);
  }

  // Only a special character has a semicolon in its written form, at the end.
  lemma EncodedEnds(c: char)
    requires c != ';'
    ensures var e := EncodeChar(c); if |e| > 1 then e[|e| - 1] == ';' && forall i | 0 <= i < |e| - 1 :: e[i] != ';' else e == [c]
  {
  }

  // Strings of which nothing is lost: without references, and for a text with single spaces between its words.
  predicate Tight(s: string, trim: bool, space: bool) {
    NoReference(s) && (trim ==> Spaced(s) && (space ==> s != "" && s[0] != ' '))
  }

  lemma {:induction false} NeverMore(s: string, tail: string, end: char, trim: bool, space: bool)
    requires Tail(tail, end, trim)
    ensures NotMore(s, tail, end, trim, space) && (!Tight(s, trim, space) ==> Fewer(s, tail, end, trim, space))
    decreases |s|
  {
    hide NotMore, Fewer, Tight, Tail;
    if s == "" {
      NothingMore(tail, end, trim, space);
    } else if StartsWith(s, "&#x") {
      NeverMore(s[Passed(s, 0) + 1..], tail, end, trim, false);
      FewerAfterReference(s, tail, end, trim, space);
      LessIsNotMore(s, tail, end, trim, space);
    } else if trim && s[0] == ' ' {
      NeverMore(s[1..], tail, end, trim, true);
      NeverMoreBySpace(s, tail, end, space);
    } else {
      NeverMore(s[1..], tail, end, trim, false);
      NeverMoreByOne(s, tail, end, trim, space);
    }
  }

  lemma {:induction false} NothingMore(tail: string, end: char, trim: bool, space: bool)
    requires Tail(tail, end, trim)
    ensures NotMore("", tail, end, trim, space) && (!Tight("", trim, space) ==> Fewer("", tail, end, trim, space))
  {
    hide Read;
    assert Encode("") + tail == tail;
    AtEnd(tail, end, trim, space);
    assert !StartsWith(""[0..], "&#x");
  }

  lemma LessIsNotMore(s: string, tail: string, end: char, trim: bool, space: bool)
    requires Fewer(s, tail, end, trim, space)
    ensures NotMore(s, tail, end, trim, space)
  {
  }

  lemma {:induction false} NeverMoreBySpace(s: string, tail: string, end: char, space: bool)
    requires s != "" && s[0] == ' ' && Tail(tail, end, true) && NotMore(s[1..], tail, end, true, true)
    requires !Tight(s[1..], true, true) ==> Fewer(s[1..], tail, end, true, true)
    ensures NotMore(s, tail, end, true, space) && (!Tight(s, true, space) ==> Fewer(s, tail, end, true, space))
  {
    hide Read, Tight, Encode;
    NotReference(s);
    Written(s);
    var rest := Encode(s[1..]) + tail;
    var q := Encode(s) + tail;
    assert EncodeChar(' ') == " ";
    assert q == " " + rest && q[1..] == rest;
    SpaceStep(q, space);
    TightBySpace(s);
  }

  lemma Written(s: string)
    requires s != "" && !StartsWith(s, "&#x")
    ensures Encode(s) == EncodeChar(s[0]) + Encode(s[1..])
  {
  }

  lemma TightBySpace(s: string)
    requires s != "" && s[0] == ' ' && !StartsWith(s, "&#x")
    ensures Tight(s[1..], true, true) ==> Tight(s, true, false)
  {
    hide StartsWith;
    if NoReference(s[1..]) { NoReferenceBefore(s); }
  }

  lemma {:induction false} NeverMoreByOne(s: string, tail: string, end: char, trim: bool, space: bool)
    requires s != "" && !StartsWith(s, "&#x") && Tail(tail, end, trim) && (trim ==> s[0] != ' ')
    requires NotMore(s[1..], tail, end, trim, false) && (!Tight(s[1..], trim, false) ==> Fewer(s[1..], tail, end, trim, false))
    ensures NotMore(s, tail, end, trim, space) && (!Tight(s, trim, space) ==> Fewer(s, tail, end, trim, space))
  {
    hide Read, Tight, Encode, EncodeChar, GetChar, IsWhiteSpace;
    Written(s);
    var rest := Encode(s[1..]) + tail;
    var q := Encode(s) + tail;
    assert q == EncodeChar(s[0]) + rest && q[0] == EncodeChar(s[0])[0];
    EncodedNotQuote(s[0]);
    CharRead(s[0], rest);
    Step(q, end, trim, space);
    TightByOne(s, trim, space);
  }

  lemma TightByOne(s: string, trim: bool, space: bool)
    requires s != "" && !StartsWith(s, "&#x") && (trim ==> s[0] != ' ')
    ensures Tight(s[1..], trim, false) ==> Tight(s, trim, space)
  {
    hide StartsWith;
    if NoReference(s[1..]) { NoReferenceBefore(s); }
  }

  lemma NoReferenceBefore(s: string)
    requires s != "" && !StartsWith(s, "&#x") && NoReference(s[1..])
    ensures NoReference(s)
  {
    forall i | 0 <= i <= |s|
      ensures !StartsWith(s[i..], "&#x")
    {
      if i > 0 { assert s[i..] == s[1..][i - 1..]; } else { assert s[0..] == s; }
    }
  }

  // An attribute's value survives writing and reading if and only if no hexadecimal reference begins in it.
  lemma {:induction false} ValueSurvives(s: string, end: char, p: string)
    requires end == '\"' || end == '\''
    ensures Kept(Encode(s) + [end] + p, end) == Some((s, p)) <==> NoReference(s)
  {
    var tail := [end] + p;
    assert Encode(s) + [end] + p == Encode(s) + tail;
    hide Kept, Encode, NoReference;
    if NoReference(s) { KeptRead(s, end, p); } else { NeverMore(s, tail, end, false, false); }
  }

  lemma {:induction false} SkippedNotMore(s: string, tail: string)
    requires tail != "" && tail[0] == '<'
    ensures var r := Condensed(SkipWhiteSpace(Encode(s) + tail), false);
            r.Some? ==> |r.value.0| + |r.value.1| <= |s| + |tail| && |r.value.1| <= |tail|
  {
    hide Condensed, SkipWhiteSpace, Encode;
    var q := Encode(s) + tail;
    if s != "" && s[0] == ' ' {
      SpaceSkipped(s, tail);
      SkippedNotMore(s[1..], tail);
    } else {
      EncodedStartsAt(s, tail);
      NothingSkipped(q);
      NeverMore(s, tail, '<', true, false);
    }
  }

  lemma EncodedStartsAt(s: string, tail: string)
    requires tail != "" && tail[0] == '<' && (s != "" ==> s[0] != ' ')
    ensures var q := Encode(s) + tail; q != "" && !IsWhiteSpace(q[0])
  {
    hide EncodeChar, Passed;
    if s != "" && StartsWith(s, "&#x") { assert s[..3][0] == s[0]; PassedTo(s, 0); }
  }

  lemma SpaceSkipped(s: string, tail: string)
    requires s != "" && s[0] == ' '
    ensures SkipWhiteSpace(Encode(s) + tail) == SkipWhiteSpace(Encode(s[1..]) + tail)
  {
    hide Encode;
    NotReference(s);
    Written(s);
    assert (Encode(s) + tail)[1..] == Encode(s[1..]) + tail;
  }

  // A text in front of a tag survives writing and reading if and only if no hexadecimal reference begins in it, and all its
  // spaces stand between words, one at a time.
  lemma {:induction false} TextSurvives(s: string, tail: string)
    requires tail != "" && tail[0] == '<'
    ensures Condensed(SkipWhiteSpace(Encode(s) + tail), false) == Some((s, tail)) <==>
            NoReference(s) && Spaced(s) && (s != "" ==> s[0] != ' ')
  {
    hide Condensed, SkipWhiteSpace, Encode, NoReference, Spaced;
    if s != "" && s[0] == ' ' {
      SpaceSkipped(s, tail);
      SkippedNotMore(s[1..], tail);
    } else {
      EncodedStartsAt(s, tail);
      NothingSkipped(Encode(s) + tail);
      if NoReference(s) && Spaced(s) { TextKept(s, tail); } else { TextLost(s, tail); }
    }
  }

  lemma {:induction false} TextKept(s: string, tail: string)
    requires tail != "" && tail[0] == '<' && NoReference(s) && Spaced(s)
    ensures Condensed(Encode(s) + tail, false) == Some((s, tail))
  {
    hide Condensed, Encode, NoReference, Spaced;
    CondensedRead(s, false, "", tail);
    assert Encode(s) + "" + tail == Encode(s) + tail;
  }

  lemma {:induction false} TextLost(s: string, tail: string)
    requires tail != "" && tail[0] == '<' && !(NoReference(s) && Spaced(s))
    ensures Condensed(Encode(s) + tail, false) != Some((s, tail))
  {
    hide Fewer, NotMore, NoReference, Spaced, Condensed, Encode;
    NeverMore(s, tail, '<', true, false);
    NotWhole(s, tail);
  }

  lemma {:induction false} NotWhole(s: string, tail: string)
    requires Fewer(s, tail, '<', true, false)
    ensures Condensed(Encode(s) + tail, false) != Some((s, tail))
  {
    hide Condensed, Encode;
  }
}
