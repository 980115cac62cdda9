/** Cleaning a vacancy description: three replacements, a loop that drops everything inside
    tags, and trimming. Text is a sequence of Unicode scalar values. */
module HtmlCleaner {

  /** Non-overlapping occurrences, from left to right. */
  function ReplaceAll(s: string, pat: string, sub: string): string
    requires pat != ""
  {
    if |s| < |pat| then s
    else if s[..|pat|] == pat then sub + ReplaceAll(s[|pat|..], pat, sub)
    else [s[0]] + ReplaceAll(s[1..], pat, sub)
  }

  /** The characters outside tags, starting inside one or not. */
  function Outside(s: string, inTag: bool): string {
    if s == "" then ""
    else if s[0] == '<' then Outside(s[1..], true)
    else if s[0] == '>' then Outside(s[1..], false)
    else (if inTag then "" else [s[0]]) + Outside(s[1..], inTag)
  }

  /** The White_Space characters of Unicode. */
  predicate IsSpace(c: char) {
    || '\t' <= c <= '\r' || c == ' ' || c == '\U{85}' || c == '\U{A0}' || c == '\U{1680}'
    || '\U{2000}' <= c <= '\U{200A}' || c == '\U{2028}' || c == '\U{2029}' || c == '\U{202F}'
    || c == '\U{205F}' || c == '\U{3000}'
  }

  function TrimLeft(s: string): string {
    if s != "" && IsSpace(s[0]) then TrimLeft(s[1..]) else s
  }

  function TrimRight(s: string): string {
    if s != "" && IsSpace(s[|s| - 1]) then TrimRight(s[..|s| - 1]) else s
  }

  function Trim(s: string): string { TrimRight(TrimLeft(s)) }

  function Replaced(text: string): string {
    ReplaceAll(ReplaceAll(ReplaceAll(text, "<p>", "\n"), "<br>", "\n"), "<li>", "• ")
  }

  function Clean(text: string): string { Trim(Outside(Replaced(text), false)) }

  /** The value of the flag after reading c. */
  function Flag(c: char, inTag: bool): bool {
    if c == '<' then true else if c == '>' then false else inTag
  }

  /** Whether the reader is inside a tag after s: the last bracket decides. */
  function InsideAfter(s: string, inTag: bool): bool {
    if s == "" then inTag else Flag(s[|s| - 1], InsideAfter(s[..|s| - 1], inTag))
  }

  lemma {:induction false} InsideAfterFirst(s: string, inTag: bool)
    requires s != ""
    ensures InsideAfter(s, inTag) == InsideAfter(s[1..], Flag(s[0], inTag))
  {
    if |s| > 1 {
      InsideAfterFirst(s[..|s| - 1], inTag);
      assert s[1..][..|s[1..]| - 1] == s[..|s| - 1][1..];
    }
  }

  lemma {:induction false} OutsideSnoc(s: string, c: char, inTag: bool)
    ensures Outside(s + [c], inTag)
            == Outside(s, inTag) + (if c == '<' || c == '>' || InsideAfter(s, inTag) then "" else [c])
  {
    if s == "" {
      assert s + [c] == [c] && [c][1..] == "";
    } else {
      assert (s + [c])[1..] == s[1..] + [c];
      OutsideSnoc(s[1..], c, Flag(s[0], inTag));
      InsideAfterFirst(s, inTag);
    }
  }

  /** The loop as written, with its flag and its builder. */
  method CleanHTML(text: string) returns (r: string)
    ensures r == Clean(text)
  {
    var t := ReplaceAll(text, "<p>", "\n");
    t := ReplaceAll(t, "<br>", "\n");
    t := ReplaceAll(t, "<li>", "• ");
    var result := "";
    var inTag := false;
    assert t[..0] == "";
    for i := 0 to |t|
      invariant result == Outside(t[..i], false) && inTag == InsideAfter(t[..i], false)
    {
      assert t[..i + 1] == t[..i] + [t[i]];
      assert t[..i + 1][..i] == t[..i];
      OutsideSnoc(t[..i], t[i], false);
      if t[i] == '<' {
        inTag := true;
        continue;
      }
      if t[i] == '>' {
        inTag := false;
        continue;
      }
      if !inTag {
        result := result + [t[i]];
      }
    }
    assert t[..|t|] == t;
    r := Trim(result);
  }

  // ---------------------------------------------------------------- no brackets, idempotence

  predicate NoBrackets(s: string) { '<' !in s && '>' !in s }

  lemma InTail(s: string, c: char)
    requires s != "" && c in s[1..]
    ensures c in s
  {
    var j :| 0 <= j < |s| - 1 && s[1..][j] == c;
    assert s[j + 1] == c;
  }

  lemma PlainTail(s: string)
    requires s != "" && NoBrackets(s)
    ensures NoBrackets(s[1..]) && s[0] != '<' && s[0] != '>'
  {
    if '<' in s[1..] { InTail(s, '<'); }
    if '>' in s[1..] { InTail(s, '>'); }
  }

  lemma InPart(s: string, i: nat, j: nat, c: char)
    requires i <= j <= |s| && c in s[i..j]
    ensures c in s
  {
    var k :| 0 <= k < j - i && s[i..j][k] == c;
    assert s[i + k] == c;
  }

  lemma {:induction false} OutsideHasNoBrackets(s: string, inTag: bool)
    ensures NoBrackets(Outside(s, inTag))
  {
    if s != "" {
      OutsideHasNoBrackets(s[1..], Flag(s[0], inTag));
    }
  }

  lemma {:induction false} OutsideKeepsPlain(s: string)
    requires NoBrackets(s)
    ensures Outside(s, false) == s
  {
    if s != "" {
      PlainTail(s);
      OutsideKeepsPlain(s[1..]);
    }
  }

  lemma {:induction false} ReplaceNothing(s: string, pat: string, sub: string)
    requires pat != "" && pat[0] !in s
    ensures ReplaceAll(s, pat, sub) == s
  {
    if |s| >= |pat| {
      assert s[0] in s && s[..|pat|][0] == s[0];
      if pat[0] in s[1..] { InTail(s, pat[0]); }
      ReplaceNothing(s[1..], pat, sub);
    }
  }

  /** Trimming removes spaces at both ends and nothing else. */
  lemma {:induction false} TrimLeftIs(s: string) returns (k: nat)
    ensures k <= |s| && TrimLeft(s) == s[k..] && forall c <- s[..k] :: IsSpace(c)
    ensures TrimLeft(s) == "" || !IsSpace(TrimLeft(s)[0])
  {
    if s != "" && IsSpace(s[0]) {
      k := TrimLeftIs(s[1..]);
      k := k + 1;
      assert s[..k] == [s[0]] + s[1..][..k - 1];
    } else {
      k := 0;
    }
  }

  lemma {:induction false} TrimRightIs(s: string) returns (k: nat)
    ensures k <= |s| && TrimRight(s) == s[..k] && forall c <- s[k..] :: IsSpace(c)
    ensures TrimRight(s) == "" || !IsSpace(TrimRight(s)[|TrimRight(s)| - 1])
  {
    if s != "" && IsSpace(s[|s| - 1]) {
      k := TrimRightIs(s[..|s| - 1]);
      assert s[k..] == s[..|s| - 1][k..] + [s[|s| - 1]];
    } else {
      k := |s|;
    }
  }

  lemma TrimIs(s: string) returns (i: nat, j: nat)
    ensures i <= j <= |s| && Trim(s) == s[i..j]
    ensures (forall c <- s[..i] :: IsSpace(c)) && (forall c <- s[j..] :: IsSpace(c))
    ensures Trim(s) == "" || (!IsSpace(Trim(s)[0]) && !IsSpace(Trim(s)[|Trim(s)| - 1]))
  {
    i := TrimLeftIs(s);
    var k := TrimRightIs(TrimLeft(s));
    j := i + k;
    assert s[j..] == TrimLeft(s)[k..];
    if Trim(s) != "" { assert Trim(s)[0] == TrimLeft(s)[0]; }
  }

  lemma TrimIdempotent(s: string)
    ensures Trim(Trim(s)) == Trim(s)
  {
    var i, j := TrimIs(s);
  }

  /** The cleaned text never contains an angle bracket. */
  lemma CleanHasNoBrackets(text: string)
    ensures NoBrackets(Clean(text))
  {
    var s := Outside(Replaced(text), false);
    OutsideHasNoBrackets(Replaced(text), false);
    var i, j := TrimIs(s);
    if '<' in s[i..j] { InPart(s, i, j, '<'); }
    if '>' in s[i..j] { InPart(s, i, j, '>'); }
  }

  /** On text without brackets cleaning is trimming. */
  lemma CleanOfPlain(text: string)
    requires NoBrackets(text)
    ensures Clean(text) == Trim(text)
  {
    ReplaceNothing(text, "<p>", "\n");
    ReplaceNothing(text, "<br>", "\n");
    ReplaceNothing(text, "<li>", "• ");
    OutsideKeepsPlain(text);
  }

  lemma CleanIdempotent(text: string)
    ensures Clean(Clean(text)) == Clean(text)
  {
    CleanHasNoBrackets(text);
    CleanOfPlain(Clean(text));
    TrimIdempotent(Outside(Replaced(text), false));
  }

  // ---------------------------------------------------------------- what is kept

  /** A document: runs of text and tags, both without brackets inside. */
  datatype Piece = Text(s: string) | Tag(name: string)

  predicate WellFormed(d: seq<Piece>) {
    forall p <- d :: NoBrackets(if p.Text? then p.s else p.name)
  }

  function Source(p: Piece): string {
    match p case Text(s) => s case Tag(name) => "<" + name + ">"
  }

  function Render(d: seq<Piece>): string {
    if d == [] then "" else Source(d[0]) + Render(d[1..])
  }

  /** The text of a document: paragraphs and line breaks become newlines, list items
      bullets, and every other tag disappears. */
  function TextOf(d: seq<Piece>): string {
    if d == [] then ""
    else
      (match d[0]
       case Text(s) => s
       case Tag(name) => if name == "p" || name == "br" then "\n" else if name == "li" then "• " else "")
      + TextOf(d[1..])
  }

  /** The document with every tag of one name replaced by text. */
  function Substitute(d: seq<Piece>, name: string, sub: string): seq<Piece> {
    if d == [] then []
    else [if d[0] == Tag(name) then Text(sub) else d[0]] + Substitute(d[1..], name, sub)
  }

  /** Characters that do not start the pattern are copied. */
  lemma {:induction false} ReplaceSkips(a: string, rest: string, pat: string, sub: string)
    requires pat != "" && pat[0] !in a
    ensures ReplaceAll(a + rest, pat, sub) == a + ReplaceAll(rest, pat, sub)
  {
    if a == "" {
      assert a + rest == rest;
    } else {
      var s := a + rest;
      assert a[0] in a && s[1..] == a[1..] + rest;
      if pat[0] in a[1..] { InTail(a, pat[0]); }
      ReplaceSkips(a[1..], rest, pat, sub);
      if |s| < |pat| {
        ShortUnchanged(rest, pat, sub);
      } else {
        assert s[..|pat|][0] == a[0];
        assert [a[0]] + (a[1..] + ReplaceAll(rest, pat, sub)) == a + ReplaceAll(rest, pat, sub);
      }
    }
  }

  lemma ShortUnchanged(s: string, pat: string, sub: string)
    requires pat != "" && |s| < |pat|
    ensures ReplaceAll(s, pat, sub) == s
  {
  }

  function TagPattern(name: string): string { "<" + name + ">" }

  /** A tag in front matches the pattern exactly if it has that name. */
  lemma TagMatches(tag: string, rest: string, name: string)
    requires NoBrackets(tag) && NoBrackets(name)
    ensures var s := TagPattern(tag) + rest; var pat := TagPattern(name);
            (|s| >= |pat| && s[..|pat|] == pat) <==> tag == name
  {
    var s, pat := TagPattern(tag) + rest, TagPattern(name);
    if tag == name {
      assert s[..|pat|] == pat;
    }
    if |s| >= |pat| && s[..|pat|] == pat {
      assert forall i :: 0 <= i < |tag| ==> s[i + 1] == tag[i] && tag[i] in tag;
      forall i | 0 <= i < |name| ensures s[i + 1] == name[i] && name[i] in name {
        assert s[..|pat|][i + 1] == pat[i + 1];
      }
      assert s[|tag| + 1] == '>';
      assert s[..|pat|][|name| + 1] == pat[|name| + 1] == '>';
      assert |tag| == |name|;
      assert tag == s[1..|tag| + 1] == s[..|pat|][1..|tag| + 1] == name;
    }
  }

  /** Replacing a tag in the text is replacing it in the document. */
  lemma {:induction false} ReplaceInDocument(d: seq<Piece>, name: string, sub: string)
    requires WellFormed(d) && NoBrackets(name)
    ensures ReplaceAll(Render(d), TagPattern(name), sub) == Render(Substitute(d, name, sub))
  {
    var pat := TagPattern(name);
    if d != [] {
      var rest := Render(d[1..]);
      assert d[0] in d;
      ReplaceInDocument(d[1..], name, sub);
      match d[0]
      case Text(s) => ReplaceSkips(s, rest, pat, sub);
      case Tag(tag) => ReplaceAtTag(tag, rest, name, sub);
      var e := Substitute(d, name, sub);
      assert e[1..] == Substitute(d[1..], name, sub);
    }
  }

  lemma ReplaceAtOtherTag(tag: string, rest: string, name: string, sub: string)
    requires NoBrackets(tag) && NoBrackets(name) && tag != name
    ensures ReplaceAll(TagPattern(tag) + rest, TagPattern(name), sub)
            == "<" + ReplaceAll((tag + ">") + rest, TagPattern(name), sub)
  {
    var pat := TagPattern(name);
    var s := TagPattern(tag) + rest;
    TagMatches(tag, rest, name);
    assert s == "<" + ((tag + ">") + rest);
    assert s[1..] == (tag + ">") + rest && [s[0]] == "<";
    if |s| < |pat| { ShortUnchanged((tag + ">") + rest, pat, sub); }
  }

  lemma ReplaceAtSameTag(rest: string, name: string, sub: string)
    requires NoBrackets(name)
    ensures ReplaceAll(TagPattern(name) + rest, TagPattern(name), sub)
            == sub + ReplaceAll(rest, TagPattern(name), sub)
  {
    var pat := TagPattern(name);
    var s := pat + rest;
    TagMatches(name, rest, name);
    assert s[|pat|..] == rest && s[..|pat|] == pat;
  }

  lemma ReplaceInsideTag(tag: string, rest: string, name: string, sub: string)
    requires NoBrackets(tag) && NoBrackets(name)
    ensures "<" + ReplaceAll((tag + ">") + rest, TagPattern(name), sub)
            == TagPattern(tag) + ReplaceAll(rest, TagPattern(name), sub)
  {
    var pat := TagPattern(name);
    var after := ReplaceAll(rest, pat, sub);
    assert pat[0] == '<' && pat[0] !in tag + ">";
    ReplaceSkips(tag + ">", rest, pat, sub);
    assert "<" + ((tag + ">") + after) == TagPattern(tag) + after;
  }

  lemma ReplaceAtTag(tag: string, rest: string, name: string, sub: string)
    requires NoBrackets(tag) && NoBrackets(name)
    ensures ReplaceAll(TagPattern(tag) + rest, TagPattern(name), sub)
            == (if tag == name then sub else TagPattern(tag)) + ReplaceAll(rest, TagPattern(name), sub)
  {
    if tag == name {
      ReplaceAtSameTag(rest, name, sub);
    } else {
      ReplaceAtOtherTag(tag, rest, name, sub);
      ReplaceInsideTag(tag, rest, name, sub);
    }
  }

  lemma {:induction false} SubstituteKeeps(d: seq<Piece>, name: string, sub: string)
    requires WellFormed(d) && NoBrackets(sub)
    ensures WellFormed(Substitute(d, name, sub))
  {
    if d != [] {
      assert d[0] in d;
      SubstituteKeeps(d[1..], name, sub);
    }
  }

  /** The plain texts of a document, in order. */
  function PlainTexts(d: seq<Piece>): string {
    if d == [] then "" else (if d[0].Text? then d[0].s else "") + PlainTexts(d[1..])
  }

  lemma {:induction false} TagDropped(name: string, rest: string)
    requires NoBrackets(name)
    ensures Outside(name + ">" + rest, true) == Outside(rest, false)
  {
    var s := name + ">" + rest;
    if name == "" {
      assert s[1..] == rest;
    } else {
      PlainTail(name);
      assert s[1..] == name[1..] + ">" + rest;
      TagDropped(name[1..], rest);
    }
  }

  lemma {:induction false} PlainKept(a: string, rest: string)
    requires NoBrackets(a)
    ensures Outside(a + rest, false) == a + Outside(rest, false)
  {
    if a == "" {
      assert a + rest == rest;
    } else {
      PlainTail(a);
      assert (a + rest)[1..] == a[1..] + rest;
      PlainKept(a[1..], rest);
    }
  }

  lemma OutsideOfTag(name: string, rest: string)
    requires NoBrackets(name)
    ensures Outside(TagPattern(name) + rest, false) == Outside(rest, false)
  {
    var s := TagPattern(name) + rest;
    assert s[0] == '<' && s[1..] == name + ">" + rest;
    TagDropped(name, rest);
  }

  lemma OutsideOfPiece(p: Piece, rest: string)
    requires NoBrackets(if p.Text? then p.s else p.name)
    ensures Outside(Source(p) + rest, false) == (if p.Text? then p.s else "") + Outside(rest, false)
  {
    match p
    case Text(s) => PlainKept(s, rest);
    case Tag(name) => OutsideOfTag(name, rest);
  }

  /** The loop keeps the texts of a document and drops its tags. */
  lemma {:induction false} OutsideOfDocument(d: seq<Piece>)
    requires WellFormed(d)
    ensures Outside(Render(d), false) == PlainTexts(d)
  {
    if d != [] {
      assert d[0] in d;
      OutsideOfDocument(d[1..]);
      OutsideOfPiece(d[0], Render(d[1..]));
    }
  }

  lemma {:induction false} TextsOfSubstituted(d: seq<Piece>)
    ensures PlainTexts(Substitute(Substitute(Substitute(d, "p", "\n"), "br", "\n"), "li", "• ")) == TextOf(d)
  {
    if d != [] {
      TextsOfSubstituted(d[1..]);
      var d1 := Substitute(d, "p", "\n");
      assert d1[1..] == Substitute(d[1..], "p", "\n");
      var d2 := Substitute(d1, "br", "\n");
      assert d2[1..] == Substitute(d1[1..], "br", "\n");
      var d3 := Substitute(d2, "li", "• ");
      assert d3[1..] == Substitute(d2[1..], "li", "• ");
    }
  }

  /** Cleaning a rendered document gives its text, trimmed. */
  lemma CleanOfDocument(d: seq<Piece>)
    requires WellFormed(d)
    ensures Clean(Render(d)) == Trim(TextOf(d))
  {
    assert TagPattern("p") == "<p>" && TagPattern("br") == "<br>" && TagPattern("li") == "<li>";
    ReplaceInDocument(d, "p", "\n");
    SubstituteKeeps(d, "p", "\n");
    var d1 := Substitute(d, "p", "\n");
    ReplaceInDocument(d1, "br", "\n");
    SubstituteKeeps(d1, "br", "\n");
    var d2 := Substitute(d1, "br", "\n");
    ReplaceInDocument(d2, "li", "• ");
    SubstituteKeeps(d2, "li", "• ");
    OutsideOfDocument(Substitute(d2, "li", "• "));
    TextsOfSubstituted(d);
  }

  predicate IsBlank(c: char) {
    c == ' ' || c == '\n' || c == '\t' || c == '\r' || c == '\U{A0}' || c == '\U{3000}'
  }

  /** The cleaned text neither begins nor ends with a blank, a newline or a tab. */
  lemma CleanIsTrimmed(text: string)
    ensures Clean(text) != "" ==> !IsBlank(Clean(text)[0]) && !IsBlank(Clean(text)[|Clean(text)| - 1])
  {
    var i, j := TrimIs(Outside(Replaced(text), false));
  }

  /** Visible characters: those of ASCII, Cyrillic letters and the bullet. */
  predicate IsEdge(c: char) { '!' <= c <= '~' || 'А' <= c <= 'я' || c == 'ё' || c == 'Ё' || c == '•' }

  lemma NothingToTrim(s: string)
    requires s != "" && IsEdge(s[0]) && IsEdge(s[|s| - 1])
    ensures Trim(s) == s
  {
  }

  /** A text without brackets that begins and ends with visible characters stays as it is. */
  lemma CleanKeepsText(text: string)
    requires NoBrackets(text) && text != "" && IsEdge(text[0]) && IsEdge(text[|text| - 1])
    ensures Clean(text) == text
  {
    CleanOfPlain(text);
    NothingToTrim(text);
  }

  /** A text that trimming and cleaning leave alone. */
  predicate IsSolid(s: string) { NoBrackets(s) && s != "" && IsEdge(s[0]) && IsEdge(s[|s| - 1]) }

  /** A tag, as it is written and what it becomes: a paragraph or a line break is a newline, a
      list item a bullet, and every other tag nothing. */
  predicate Becomes(tag: string, pat: string, sub: string) {
    || (tag == "p" && pat == "<p>" && sub == "\n")
    || (tag == "br" && pat == "<br>" && sub == "\n")
    || (tag == "li" && pat == "<li>" && sub == "• ")
    || (tag !in ["p", "br", "li"] && pat == "<" + tag + ">" && sub == "")
  }

  /** One tag between two such texts. */
  lemma TagBetween(a: string, b: string, tag: string, pat: string, sub: string)
    requires IsSolid(a) && IsSolid(b) && NoBrackets(tag) && Becomes(tag, pat, sub)
    ensures Clean(a + pat + b) == a + sub + b
  {
    var d := [Text(a), Tag(tag), Text(b)];
    assert pat == TagPattern(tag);
    RenderThree(a, tag, b, sub);
    SolidEnds(a, sub, b);
    SolidDocument(d, a + pat + b, a + sub + b);
  }

  lemma SolidDocument(d: seq<Piece>, text: string, shown: string)
    requires WellFormed(d) && Render(d) == text && TextOf(d) == shown
    requires shown != "" && IsEdge(shown[0]) && IsEdge(shown[|shown| - 1])
    ensures Clean(text) == shown
  {
    CleanOfDocument(d);
    NothingToTrim(shown);
  }

  lemma RenderThree(a: string, tag: string, b: string, sub: string)
    requires sub == if tag == "p" || tag == "br" then "\n" else if tag == "li" then "• " else ""
    ensures Render([Text(a), Tag(tag), Text(b)]) == a + TagPattern(tag) + b
    ensures TextOf([Text(a), Tag(tag), Text(b)]) == a + sub + b
  {
    var d := [Text(a), Tag(tag), Text(b)];
    assert d[1..] == [Tag(tag), Text(b)] && [Tag(tag), Text(b)][1..] == [Text(b)] && [Text(b)][1..] == [];
    assert Render([Text(b)]) == b && TextOf([Text(b)]) == b;
    assert Render([Tag(tag), Text(b)]) == TagPattern(tag) + b && TextOf([Tag(tag), Text(b)]) == sub + b;
  }

  lemma SolidEnds(a: string, sub: string, b: string)
    requires IsSolid(a) && IsSolid(b)
    ensures var s := a + sub + b; s != "" && IsEdge(s[0]) && IsEdge(s[|s| - 1])
  {
  }

  // ---------------------------------------------------------------- the loop and the replacements on any text

  /** The last bracket before position i opens a tag. */
  ghost predicate InTag(s: string, i: nat)
    requires i <= |s|
  {
    exists k :: 0 <= k < i && s[k] == '<' && forall m :: k < m < i ==> s[m] != '>'
  }

  lemma {:induction false} InTagIff(s: string)
    ensures InsideAfter(s, false) <==> InTag(s, |s|)
  {
    if s != "" {
      var n := |s| - 1;
      InTagIff(s[..n]);
      if s[n] == '<' {
        assert InTag(s, |s|);
      } else if s[n] != '>' {
        assert InTag(s[..n], n) <==> InTag(s, n + 1) by {
          if k :| 0 <= k < n && s[..n][k] == '<' && forall m :: k < m < n ==> s[..n][m] != '>' {
            assert s[k] == '<' && forall m :: k < m < n + 1 ==> s[m] != '>' by {
              forall m | k < m < n + 1 ensures s[m] != '>' { if m < n { assert s[..n][m] == s[m]; } }
            }
          }
          if k :| 0 <= k < n + 1 && s[k] == '<' && forall m :: k < m < n + 1 ==> s[m] != '>' {
            assert k < n && s[..n][k] == '<';
            assert forall m :: k < m < n ==> s[..n][m] == s[m];
          }
        }
      }
    }
  }

  /** On any text, well-formed or not, the loop keeps exactly the characters that are no
      brackets and lie outside tags, each once and in order. */
  lemma {:induction false} OutsideExactly(s: string) returns (at: seq<nat>)
    ensures |at| == |Outside(s, false)|
    ensures forall j, k :: 0 <= j < k < |at| ==> at[j] < at[k]
    ensures forall k :: 0 <= k < |at| ==> at[k] < |s| && Outside(s, false)[k] == s[at[k]]
    ensures forall i: nat :: i in at <==> i < |s| && s[i] != '<' && s[i] != '>' && !InTag(s, i)
  {
    at := [];
    if s != "" {
      var n := |s| - 1;
      at := OutsideExactly(s[..n]);
      OutsideSnoc(s[..n], s[n], false);
      assert s == s[..n] + [s[n]];
      InTagIff(s[..n]);
      forall i: nat | i <= n ensures InTag(s, i) <==> InTag(s[..n], i) { InTagPrefix(s, n, i); }
      if s[n] != '<' && s[n] != '>' && !InsideAfter(s[..n], false) { at := at + [n]; }
    }
  }

  lemma InTagPrefix(s: string, n: nat, i: nat)
    requires i <= n <= |s|
    ensures InTag(s, i) <==> InTag(s[..n], i)
  {
    assert forall k :: 0 <= k < i ==> s[..n][k] == s[k];
  }

  ghost predicate Occurs(s: string, pat: string, i: nat) { i + |pat| <= |s| && s[i..i + |pat|] == pat }

  lemma OccursInTail(s: string, pat: string, i: nat)
    requires s != ""
    ensures Occurs(s[1..], pat, i) <==> Occurs(s, pat, i + 1)
  {
    if i + 1 + |pat| <= |s| { assert s[1..][i..i + |pat|] == s[i + 1..i + 1 + |pat|]; }
  }

  lemma CopyHead(s: string, pat: string, sub: string)
    requires pat != "" && |s| >= |pat| && !Occurs(s, pat, 0)
    ensures ReplaceAll(s, pat, sub) == [s[0]] + ReplaceAll(s[1..], pat, sub)
  {
    assert s[0..0 + |pat|] == s[..|pat|];
  }

  lemma Prepend(s: string, i: nat, sub: string, rest: string)
    requires 0 < i <= |s|
    ensures [s[0]] + (s[1..][..i - 1] + sub + rest) == s[..i] + sub + rest
  {
    assert s[..i] == [s[0]] + s[1..][..i - 1];
  }

  /** The leftmost occurrence is replaced, and the search goes on behind it. */
  lemma {:induction false} ReplacesLeftmost(s: string, pat: string, sub: string, i: nat, rest: string)
    requires pat != "" && Occurs(s, pat, i) && forall k: nat :: k < i ==> !Occurs(s, pat, k)
    requires rest == s[i + |pat|..]
    ensures ReplaceAll(s, pat, sub) == s[..i] + sub + ReplaceAll(rest, pat, sub)
  {
    if i == 0 {
      assert s[0..|pat|] == s[..|pat|] && s[..0] == "";
    } else {
      forall k: nat | k < i - 1 ensures !Occurs(s[1..], pat, k) { OccursInTail(s, pat, k); }
      OccursInTail(s, pat, i - 1);
      ReplacesLeftmost(s[1..], pat, sub, i - 1, rest);
      CopyHead(s, pat, sub);
      Prepend(s, i, sub, ReplaceAll(rest, pat, sub));
    }
  }

  /** Without an occurrence the text stays as it is. */
  lemma {:induction false} ReplacesNothing(s: string, pat: string, sub: string)
    requires pat != "" && forall k: nat :: !Occurs(s, pat, k)
    ensures ReplaceAll(s, pat, sub) == s
  {
    if |s| >= |pat| {
      assert !Occurs(s, pat, 0) && s[0..0 + |pat|] == s[..|pat|];
      forall k: nat ensures !Occurs(s[1..], pat, k) { OccursInTail(s, pat, k); }
      ReplacesNothing(s[1..], pat, sub);
    }
  }

  /** An opening bracket that is never closed swallows the rest of the text. */
  lemma {:induction false} UnclosedSwallows(a: string, b: string, inTag: bool)
    requires '>' !in b
    ensures Outside(a + "<" + b, inTag) == Outside(a, inTag)
  {
    var s := a + "<" + b;
    if a == "" {
      assert s[1..] == b;
      NothingInside(b);
    } else {
      assert s[1..] == a[1..] + "<" + b;
      UnclosedSwallows(a[1..], b, Flag(a[0], inTag));
    }
  }

  lemma {:induction false} NothingInside(b: string)
    requires '>' !in b
    ensures Outside(b, true) == ""
  {
    if b != "" {
      assert b[0] in b;
      if '>' in b[1..] { InTail(b, '>'); }
      NothingInside(b[1..]);
    }
  }
}
