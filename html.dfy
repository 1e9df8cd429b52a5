/** escapeHtml and unescapeHtml: one left-to-right pass each over the five
    characters & < > " ' and their entities. */
module Html {

  /** The characters escapeHtml never leaves in its output. */
  predicate IsMarkup(c: char) {
    c == '<' || c == '>' || c == '"' || c == '\''
  }

  /** The replacement escapeHtml uses for one character. */
  function EscapeChar(c: char): (r: string)
    ensures r == [c] <==> !IsMarkup(c) && c != '&'
    ensures r != [] && (r[0] == '&' ==> EscapeEntityAt(r, 0))
    ensures forall i :: 0 <= i < |r| ==> !IsMarkup(r[i]) && (i > 0 ==> r[i] != '&')
  {
    if c == '&' then "&amp;"
    else if c == '<' then "&lt;"
    else if c == '>' then "&gt;"
    else if c == '"' then "&quot;"
    else if c == '\'' then "&#039;"
    else [c]
  }

  // Each entity, recognised at index i of t character by character.
  predicate AmpAt(t: string, i: nat) {
    i + 4 < |t| && t[i] == '&' && t[i + 1] == 'a' && t[i + 2] == 'm' && t[i + 3] == 'p' && t[i + 4] == ';'
  }
  predicate LtAt(t: string, i: nat) {
    i + 3 < |t| && t[i] == '&' && t[i + 1] == 'l' && t[i + 2] == 't' && t[i + 3] == ';'
  }
  predicate GtAt(t: string, i: nat) {
    i + 3 < |t| && t[i] == '&' && t[i + 1] == 'g' && t[i + 2] == 't' && t[i + 3] == ';'
  }
  predicate QuotAt(t: string, i: nat) {
    i + 5 < |t| && t[i] == '&' && t[i + 1] == 'q' && t[i + 2] == 'u' && t[i + 3] == 'o'
    && t[i + 4] == 't' && t[i + 5] == ';'
  }
  /** "&#039;", the apostrophe escapeHtml writes. */
  predicate Apos039At(t: string, i: nat) {
    i + 5 < |t| && t[i] == '&' && t[i + 1] == '#' && t[i + 2] == '0' && t[i + 3] == '3'
    && t[i + 4] == '9' && t[i + 5] == ';'
  }
  /** "&#39;", the apostrophe unescapeHtml reads. */
  predicate Apos39At(t: string, i: nat) {
    i + 4 < |t| && t[i] == '&' && t[i + 1] == '#' && t[i + 2] == '3' && t[i + 3] == '9' && t[i + 4] == ';'
  }

  /** One of the entities escapeHtml writes starts at index i of t. */
  predicate EscapeEntityAt(t: string, i: nat) {
    AmpAt(t, i) || LtAt(t, i) || GtAt(t, i) || QuotAt(t, i) || Apos039At(t, i)
  }

  /** An entity stays an entity when text is appended after it... */
  lemma EntityBeforeText(a: string, b: string, i: nat)
    requires EscapeEntityAt(a, i)
    ensures EscapeEntityAt(a + b, i)
  {
  }

  /** ... or put before it. */
  lemma EntityAfterText(a: string, b: string, i: nat)
    requires EscapeEntityAt(b, i)
    ensures EscapeEntityAt(a + b, |a| + i)
  {
  }

  /** escapeHtml: no < > " or ' is left, and every & begins an entity. */
  function EscapeHtml(s: string): (r: string)
    ensures forall i :: 0 <= i < |r| ==> !IsMarkup(r[i])
    ensures forall i :: 0 <= i < |r| && r[i] == '&' ==> EscapeEntityAt(r, i)
    ensures |r| >= |s|
  {
    if s == [] then []
    else
      var head, tail := EscapeChar(s[0]), EscapeHtml(s[1..]);
      var r := head + tail;
      assert forall i :: 0 <= i < |r| && r[i] == '&' ==> EscapeEntityAt(r, i) by {
        forall i | 0 <= i < |r| && r[i] == '&' ensures EscapeEntityAt(r, i) {
          if i < |head| {
            EntityBeforeText(head, tail, i);
          } else {
            EntityAfterText(head, tail, i - |head|);
          }
        }
      }
      r
  }

  /** unescapeHtml: `/&lt;|&gt;|&amp;|&quot;|&#39;/g` scanned left to right;
      every other character is copied. */
  function UnescapeHtml(t: string): (r: string)
    ensures |r| <= |t|
    decreases |t|
  {
    if t == [] then []
    else if LtAt(t, 0) then "<" + UnescapeHtml(t[4..])
    else if GtAt(t, 0) then ">" + UnescapeHtml(t[4..])
    else if AmpAt(t, 0) then "&" + UnescapeHtml(t[5..])
    else if QuotAt(t, 0) then "\"" + UnescapeHtml(t[6..])
    else if Apos39At(t, 0) then "'" + UnescapeHtml(t[5..])
    else [t[0]] + UnescapeHtml(t[1..])
  }

  /** `s` with every apostrophe spelled "&#039;". */
  function SpellApostrophes(s: string): (r: string)
    ensures |r| >= |s|
    ensures '\'' in s ==> |r| > |s|
  {
    if s == [] then []
    else (if s[0] == '\'' then "&#039;" else [s[0]]) + SpellApostrophes(s[1..])
  }

  /** Text without & passes through unescapeHtml unchanged. */
  lemma {:induction false} UnescapeWithoutAmpersand(t: string)
    requires '&' !in t
    ensures UnescapeHtml(t) == t
    decreases |t|
  {
    if t != [] {
      UnescapeWithoutAmpersand(t[1..]);
    }
  }

  /** Unescaping one escaped character: the apostrophe's "&#039;" is not an
      entity unescapeHtml knows, so it stays as it is. */
  lemma UnescapeAfterEscapeChar(c: char, rest: string)
    ensures UnescapeHtml(EscapeChar(c) + rest)
         == (if c == '\'' then "&#039;" else [c]) + UnescapeHtml(rest)
  {
    var t := EscapeChar(c) + rest;
    if c == '&' {
      assert t[5..] == rest;
    } else if c == '<' || c == '>' {
      assert t[4..] == rest;
    } else if c == '"' {
      assert t[6..] == rest;
    } else if c == '\'' {
      UnescapeAfterApostrophe(rest);
    } else {
      assert t[1..] == rest;
    }
  }

  /** "&#039;" is not one of the entities unescapeHtml reads; it is copied. */
  lemma UnescapeAfterApostrophe(rest: string)
    ensures UnescapeHtml("&#039;" + rest) == "&#039;" + UnescapeHtml(rest)
  {
    var t := "&#039;" + rest;
    assert t[0] == '&' && t[1] == '#' && t[2] == '0';
    assert t[1..] == "#039;" + rest;
    UnescapeLiteralTail("#039;", rest);
  }

  /** A prefix without & is copied by unescapeHtml. */
  lemma {:induction false} UnescapeLiteralTail(p: string, rest: string)
    requires '&' !in p
    ensures UnescapeHtml(p + rest) == p + UnescapeHtml(rest)
    decreases |p|
  {
    if p == [] {
      assert p + rest == rest;
    } else {
      var t := p + rest;
      assert t[0] == p[0] && t[1..] == p[1..] + rest;
      UnescapeNonAmpersand(t);
      assert '&' !in p[1..] by {
        forall i | 0 <= i < |p[1..]| ensures p[1..][i] != '&' { assert p[1..][i] == p[i + 1]; }
      }
      UnescapeLiteralTail(p[1..], rest);
      assert [p[0]] + (p[1..] + UnescapeHtml(rest)) == p + UnescapeHtml(rest);
    }
  }

  /** "&#39;" is decoded wherever it starts, whatever follows it. */
  lemma UnescapeApos39(rest: string)
    ensures UnescapeHtml("&#39;" + rest) == "'" + UnescapeHtml(rest)
  {
    var t := "&#39;" + rest;
    assert t[0] == '&' && t[1] == '#' && t[2] == '3' && t[3] == '9' && t[4] == ';';
    assert t[5..] == rest;
  }

  /** An & that starts none of the five entities is copied, and the scan
      resumes at the next character: other entities are left unchanged. */
  lemma UnescapeOtherAmpersand(t: string)
    requires t != [] && t[0] == '&'
    requires !LtAt(t, 0) && !GtAt(t, 0) && !AmpAt(t, 0) && !QuotAt(t, 0) && !Apos39At(t, 0)
    ensures UnescapeHtml(t) == "&" + UnescapeHtml(t[1..])
  {
  }

  /** "&nbsp;", an entity unescapeHtml does not read, is left as it is. */
  lemma UnescapeNbsp()
    ensures UnescapeHtml("&nbsp;") == "&nbsp;"
  {
    UnescapeOtherAs("&nbsp;", "nbsp;");
  }

  /** An & that starts no known entity, followed by text without &. */
  lemma UnescapeOtherAs(t: string, p: string)
    requires t == "&" + p && '&' !in p && p != [] && p[0] != 'l' && p[0] != 'g' && p[0] != 'a'
    requires p[0] != 'q' && p[0] != '#'
    ensures UnescapeHtml(t) == t
  {
    assert t[1] == p[0] && t[1..] == p;
    UnescapeOtherAmpersand(t);
    UnescapeWithoutAmpersand(p);
  }

  /** A character other than & is copied by unescapeHtml. */
  lemma UnescapeNonAmpersand(t: string)
    requires t != [] && t[0] != '&'
    ensures UnescapeHtml(t) == [t[0]] + UnescapeHtml(t[1..])
  {
  }

  /** unescapeHtml undoes escapeHtml except that apostrophes come back as "&#039;". */
  lemma {:induction false} UnescapeEscape(s: string)
    ensures UnescapeHtml(EscapeHtml(s)) == SpellApostrophes(s)
    decreases |s|
  {
    if s != [] {
      UnescapeAfterEscapeChar(s[0], EscapeHtml(s[1..]));
      UnescapeEscape(s[1..]);
    }
  }

  /** The round trip restores `s` exactly when `s` contains no apostrophe. */
  lemma RoundTripIff(s: string)
    ensures UnescapeHtml(EscapeHtml(s)) == s <==> '\'' !in s
  {
    UnescapeEscape(s);
    if '\'' !in s {
      SpellWithoutApostrophe(s);
    }
  }

  lemma {:induction false} SpellWithoutApostrophe(s: string)
    requires '\'' !in s
    ensures SpellApostrophes(s) == s
  {
    if s != [] {
      SpellWithoutApostrophe(s[1..]);
    }
  }

  lemma {:induction false} EscapeAppend(a: string, b: string)
    ensures EscapeHtml(a + b) == EscapeHtml(a) + EscapeHtml(b)
    decreases |a|
  {
    if a == [] {
      assert a + b == b;
    } else {
      assert (a + b)[1..] == a[1..] + b;
      EscapeAppend(a[1..], b);
    }
  }

  /** Text without the five special characters passes through escapeHtml unchanged. */
  lemma {:induction false} EscapePlain(s: string)
    requires forall i :: 0 <= i < |s| ==> !IsMarkup(s[i]) && s[i] != '&'
    ensures EscapeHtml(s) == s
  {
    if s != [] {
      EscapePlain(s[1..]);
    }
  }

  /** A tag whose name escapeHtml leaves alone. */
  lemma EscapeTag(p: string)
    requires EscapeHtml(p) == p
    ensures EscapeHtml("<" + p + ">") == "&lt;" + p + "&gt;"
  {
    var q := p + ">";
    assert "<" + p + ">" == ['<'] + q;
    EscapeTagEnd(p);
    EscapeCons('<', q);
    AngleEntities();
    assert EscapeHtml(['<'] + q) == "&lt;" + (p + "&gt;");
  }

  lemma EscapeTagEnd(p: string)
    requires EscapeHtml(p) == p
    ensures EscapeHtml(p + ">") == p + "&gt;"
  {
    AngleEntities();
    EscapeSnoc(p, '>');
  }

  lemma AngleEntities()
    ensures EscapeChar('<') == "&lt;" && EscapeChar('>') == "&gt;"
  {
  }

  lemma EscapeCons(c: char, s: string)
    ensures EscapeHtml([c] + s) == EscapeChar(c) + EscapeHtml(s)
  {
    assert ([c] + s)[1..] == s;
  }

  lemma EscapeSnoc(s: string, c: char)
    ensures EscapeHtml(s + [c]) == EscapeHtml(s) + EscapeChar(c)
  {
    EscapeAppend(s, [c]);
    EscapeCons(c, []);
    assert [c] + [] == [c];
  }

  lemma EscapeAppend3(a: string, b: string, c: string)
    ensures EscapeHtml(a + b + c) == EscapeHtml(a) + EscapeHtml(b) + EscapeHtml(c)
  {
    EscapeAppend(a + b, c);
    EscapeAppend(a, b);
  }

  lemma EscapeOpenTag()
    ensures EscapeHtml("<div>") == "&lt;div&gt;"
  {
    EscapePlain("div");
    EscapeTagAs("<div>", "div", "&lt;div&gt;");
  }

  lemma EscapeCloseTag()
    ensures EscapeHtml("</div>") == "&lt;/div&gt;"
  {
    EscapePlain("/div");
    EscapeTagAs("</div>", "/div", "&lt;/div&gt;");
  }

  lemma EscapeTagAs(s: string, p: string, e: string)
    requires s == "<" + p + ">" && e == "&lt;" + p + "&gt;" && EscapeHtml(p) == p
    ensures EscapeHtml(s) == e
  {
    EscapeTag(p);
  }

  lemma EscapeTagExample()
    ensures EscapeHtml("<div>Test</div>") == "&lt;div&gt;Test&lt;/div&gt;"
  {
    TagExampleParts();
    EscapeOpenTag();
    EscapeCloseTag();
    EscapePlain("Test");
    EscapeJoin3("<div>Test</div>", "<div>", "Test", "</div>", "&lt;div&gt;", "Test", "&lt;/div&gt;",
                "&lt;div&gt;Test&lt;/div&gt;");
  }

  lemma EscapeJoin3(s: string, a: string, b: string, c: string, ea: string, eb: string, ec: string, e: string)
    requires s == a + b + c && e == ea + eb + ec
    requires EscapeHtml(a) == ea && EscapeHtml(b) == eb && EscapeHtml(c) == ec
    ensures EscapeHtml(s) == e
  {
    EscapeAppend3(a, b, c);
  }

  lemma TagExampleParts()
    ensures "<div>Test</div>" == "<div>" + "Test" + "</div>"
    ensures "&lt;div&gt;Test&lt;/div&gt;" == "&lt;div&gt;" + "Test" + "&lt;/div&gt;"
  {
  }

  lemma SpellTagExample()
    ensures SpellApostrophes("<div>Test</div>") == "<div>Test</div>"
  {
    SpellWithoutApostrophe("<div>Test</div>");
  }

  lemma UnescapeOfEscaped(s: string, t: string)
    requires EscapeHtml(s) == t
    ensures UnescapeHtml(t) == SpellApostrophes(s)
  {
    UnescapeEscape(s);
  }

  lemma UnescapeTagExample()
    ensures UnescapeHtml("&lt;div&gt;Test&lt;/div&gt;") == "<div>Test</div>"
  {
    EscapeTagExample();
    UnescapeOfEscaped("<div>Test</div>", "&lt;div&gt;Test&lt;/div&gt;");
    SpellTagExample();
  }

  /** unescapeHtml knows only "&#39;": the "&#039;" written by escapeHtml stays. */
  lemma ApostropheEntities()
    ensures UnescapeHtml("&#039;") == "&#039;"
    ensures UnescapeHtml("&#39;") == "'"
  {
    UnescapeAfterEscapeChar('\'', "");
  }
}
