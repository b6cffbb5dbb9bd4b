/**
 * `injectConfig` of the frontend server: a script block that sets `window.API_URL` is put
 * before the first `</head>` with JavaScript's `String.prototype.replace` and a string
 * pattern, whose replacement text gives `$` patterns a meaning of their own.
 */
module Server {
  import opened Wrappers
  import opened Text

  const HeadClose: string := "</head>"

  /** The pieces of the template literal around the configured API URL. */
  const ScriptHead: string := "\n        " + "<script>\n" + "            "
  const Assign: string := "window.API_URL = '"
  const Quote: string := "';"
  const ScriptTail: string := "\n        " + "</script>" + "\n    "

  /** The template literal, with the configured API URL in single quotes. */
  function ConfigScript(apiUrl: string): string {
    ScriptHead + Assign + apiUrl + Quote + ScriptTail
  }

  /** The template itself holds no `$`. */
  lemma TemplateHasNoDollar()
    ensures '$' !in ScriptHead && '$' !in Assign && '$' !in Quote && '$' !in ScriptTail && '$' !in HeadClose
  {
  }

  /** The assignment of the URL occurs in any text with the script block in it. */
  lemma AssignmentInScript(p: string, apiUrl: string, q: string)
    ensures Contains(p + ConfigScript(apiUrl) + q, Assign + apiUrl + Quote)
  {
    var r := p + ConfigScript(apiUrl) + q;
    var y := Assign + apiUrl + Quote;
    var k := |p| + |ScriptHead|;
    assert r == p + ScriptHead + y + (ScriptTail + q);
    assert r[k..k + |y|] == y;
    assert OccursAt(r, y, k);
  }

  /**
   * The replacement text as `replace` inserts it: `$$` is one `$`, `$&` the matched text,
   * `` $` `` the text before the match, `$'` the text after it; a pattern string has no groups,
   * so any other `$` stays as it is.
   */
  function Expand(r: string, matched: string, before: string, after: string): string
    decreases |r|
  {
    if |r| >= 2 && r[0] == '$' && IsPatternChar(r[1]) then
      Piece(r[1], matched, before, after) + Expand(r[2..], matched, before, after)
    else if r == [] then []
    else [r[0]] + Expand(r[1..], matched, before, after)
  }

  predicate IsPatternChar(c: char) {
    c == '$' || c == '&' || c == '`' || c == '\''
  }

  function Piece(c: char, matched: string, before: string, after: string): string {
    if c == '$' then "$" else if c == '&' then matched else if c == '`' then before else after
  }

  /** A replacement without `$` is inserted as it is. */
  lemma ExpandNoDollar(r: string, matched: string, before: string, after: string)
    requires '$' !in r
    ensures Expand(r, matched, before, after) == r
  {
    ExpandConcat(r, [], matched, before, after);
    assert r + [] == r;
  }

  /** `injectConfig(html)`. */
  function InjectConfig(html: string, apiUrl: string): (r: string)
    ensures !Contains(html, HeadClose) ==> r == html
  {
    match Find(html, HeadClose)
    case None => html
    case Some(i) =>
      html[..i] + Expand(ConfigScript(apiUrl) + HeadClose, HeadClose, html[..i], html[i + |HeadClose|..]) + html[i + |HeadClose|..]
  }

  /**
   * For a URL without `$`, the script lands right before the first `</head>`: everything
   * before that point and everything from it on is kept.
   */
  lemma InjectBeforeFirstHead(html: string, apiUrl: string)
    requires '$' !in apiUrl && Contains(html, HeadClose)
    ensures Find(html, HeadClose).Some?
    ensures var i := Find(html, HeadClose).value;
            InjectConfig(html, apiUrl) == html[..i] + ConfigScript(apiUrl) + html[i..]
            && forall j :: 0 <= j < i ==> !OccursAt(html, HeadClose, j)
  {
    var i := Find(html, HeadClose).value;
    TemplateHasNoDollar();
    assert '$' !in ConfigScript(apiUrl) + HeadClose;
    ExpandNoDollar(ConfigScript(apiUrl) + HeadClose, HeadClose, html[..i], html[i + |HeadClose|..]);
    assert html[i..] == HeadClose + html[i + |HeadClose|..] by {
      assert html[i..i + |HeadClose|] == HeadClose;
    }
  }

  /** The result holds the assignment of the URL, verbatim between single quotes. */
  lemma InjectAssignsApiUrl(html: string, apiUrl: string)
    requires '$' !in apiUrl && Contains(html, HeadClose)
    ensures Contains(InjectConfig(html, apiUrl), Assign + apiUrl + Quote)
  {
    InjectBeforeFirstHead(html, apiUrl);
    var i := Find(html, HeadClose).value;
    AssignmentInScript(html[..i], apiUrl, html[i..]);
  }

  /** Injecting is not idempotent: the output still has a `</head>`, so a second call adds a second script. */
  lemma InjectTwiceGrowsTwice(html: string, apiUrl: string)
    requires '$' !in apiUrl && Contains(html, HeadClose)
    ensures |InjectConfig(html, apiUrl)| == |html| + |ConfigScript(apiUrl)|
    ensures Contains(InjectConfig(html, apiUrl), HeadClose)
    ensures |InjectConfig(InjectConfig(html, apiUrl), apiUrl)| == |html| + 2 * |ConfigScript(apiUrl)|
  {
    InjectBeforeFirstHead(html, apiUrl);
    var i := Find(html, HeadClose).value;
    var r := InjectConfig(html, apiUrl);
    var k := i + |ConfigScript(apiUrl)|;
    assert r[k..k + |HeadClose|] == html[i..i + |HeadClose|];
    assert OccursAt(r, HeadClose, k);
    InjectBeforeFirstHead(r, apiUrl);
  }

  /** `$&` followed by text without `$` expands to the matched text and that text. */
  lemma ExpandAmpersand(post: string, matched: string, before: string, after: string)
    requires '$' !in post
    ensures Expand("$&" + post, matched, before, after) == matched + post
  {
    var r := "$&" + post;
    assert r[0] == '$' && r[1] == '&' && r[2..] == post;
    ExpandNoDollar(post, matched, before, after);
  }

  /** A `$&` in the URL is replaced by the matched `</head>` rather than kept. */
  lemma DollarPatternInUrl()
    ensures InjectConfig(HeadClose, "$&") == ConfigScript(HeadClose) + HeadClose
  {
    assert OccursAt(HeadClose, HeadClose, 0);
    assert Find(HeadClose, HeadClose) == Some(0);
    TemplateHasNoDollar();
    var pre := ScriptHead + Assign;
    var post := Quote + ScriptTail + HeadClose;
    assert ConfigScript("$&") + HeadClose == pre + ("$&" + post);
    ExpandConcat(pre, "$&" + post, HeadClose, "", "");
    ExpandAmpersand(post, HeadClose, "", "");
    assert HeadClose[..0] == "" && HeadClose[7..] == "";
    assert ConfigScript(HeadClose) + HeadClose == pre + (HeadClose + post);
  }

  /** Text without `$` in front of a replacement passes through, so expansion splits there. */
  lemma {:induction false} ExpandConcat(a: string, b: string, matched: string, before: string, after: string)
    requires '$' !in a
    ensures Expand(a + b, matched, before, after) == a + Expand(b, matched, before, after)
    decreases |a|
  {
    if a == [] {
      assert a + b == b;
    } else {
      var r := a + b;
      assert r[0] == a[0] && a[0] in a;
      assert r[1..] == a[1..] + b;
      assert forall c :: c in a[1..] ==> c in a;
      ExpandConcat(a[1..], b, matched, before, after);
      calc {
        Expand(r, matched, before, after);
        [r[0]] + Expand(r[1..], matched, before, after);
        [a[0]] + (a[1..] + Expand(b, matched, before, after));
        { assert a == [a[0]] + a[1..]; }
        a + Expand(b, matched, before, after);
      }
    }
  }
}
