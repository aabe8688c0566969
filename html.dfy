/** `escapeHtml` (script.js), used when the tracker's report is written out as HTML:
    five global replacements applied one after the other, `&` first. */
module Html {
  import opened Text

  /** `s.replace(/c/g, entity)` */
  function ReplaceAll(s: string, c: char, entity: string): (r: string)
    ensures forall k :: 0 <= k < |r| ==> r[k] != c || c in entity
    ensures forall k :: 0 <= k < |r| ==> r[k] in s || r[k] in entity
  {
    if s == [] then []
    else (if s[0] == c then entity else [s[0]]) + ReplaceAll(s[1..], c, entity)
  }

  /** `escapeHtml(value)` for a value that is already a string. */
  function EscapeHtml(s: string): (r: string)
    ensures forall k :: 0 <= k < |r| ==> r[k] != '<' && r[k] != '>' && r[k] != '"' && r[k] != '\''
  {
    var amp := ReplaceAll(s, '&', "&amp;");
    var lt := ReplaceAll(amp, '<', "&lt;");
    var gt := ReplaceAll(lt, '>', "&gt;");
    var quot := ReplaceAll(gt, '"', "&quot;");
    ReplaceAll(quot, '\'', "&#39;")
  }

  predicate IsSpecial(c: char) {
    c == '&' || c == '<' || c == '>' || c == '"' || c == '\''
  }

  /** The entity that stands for one character. */
  function EscapeChar(c: char): (r: string)
    ensures r != []
    ensures r[0] == '&' <==> IsSpecial(c)
    ensures !IsSpecial(c) ==> r == [c]
    ensures forall k :: 0 <= k < |r| ==> r[k] != '<' && r[k] != '>' && r[k] != '"' && r[k] != '\''
    ensures IsSpecial(c) ==> r in Entities
  {
    if c == '&' then "&amp;"
    else if c == '<' then "&lt;"
    else if c == '>' then "&gt;"
    else if c == '"' then "&quot;"
    else if c == '\'' then "&#39;"
    else [c]
  }

  /** The escape as one pass over the characters. */
  function EscapeEach(s: string): string {
    if s == [] then [] else EscapeChar(s[0]) + EscapeEach(s[1..])
  }

  lemma {:induction false} ReplaceAllAppend(a: string, b: string, c: char, entity: string)
    ensures ReplaceAll(a + b, c, entity) == ReplaceAll(a, c, entity) + ReplaceAll(b, c, entity)
  {
    if a != [] {
      assert (a + b)[1..] == a[1..] + b;
      ReplaceAllAppend(a[1..], b, c, entity);
    } else {
      assert a + b == b;
    }
  }

  lemma {:induction false} EscapeHtmlAppend(a: string, b: string)
    ensures EscapeHtml(a + b) == EscapeHtml(a) + EscapeHtml(b)
  {
    ReplaceAllAppend(a, b, '&', "&amp;");
    var a1, b1 := ReplaceAll(a, '&', "&amp;"), ReplaceAll(b, '&', "&amp;");
    ReplaceAllAppend(a1, b1, '<', "&lt;");
    var a2, b2 := ReplaceAll(a1, '<', "&lt;"), ReplaceAll(b1, '<', "&lt;");
    ReplaceAllAppend(a2, b2, '>', "&gt;");
    var a3, b3 := ReplaceAll(a2, '>', "&gt;"), ReplaceAll(b2, '>', "&gt;");
    ReplaceAllAppend(a3, b3, '"', "&quot;");
    var a4, b4 := ReplaceAll(a3, '"', "&quot;"), ReplaceAll(b3, '"', "&quot;");
    ReplaceAllAppend(a4, b4, '\'', "&#39;");
  }

  lemma ReplaceAllOfPlain(s: string, c: char, entity: string)
    requires c !in s
    ensures ReplaceAll(s, c, entity) == s
  {
  }

  lemma ReplaceAllOfOne(c: char, x: char, entity: string)
    ensures ReplaceAll([c], x, entity) == if c == x then entity else [c]
  {
    assert [c][1..] == [];
  }

  /** Each replacement after the one that produced an entity leaves it alone. */
  lemma EscapeHtmlOfChar(c: char)
    ensures EscapeHtml([c]) == EscapeChar(c)
  {
    ReplaceAllOfOne(c, '&', "&amp;");
    var amp := ReplaceAll([c], '&', "&amp;");
    if c == '&' {
      AmpersandEntityStays();
    } else {
      ReplaceAllOfOne(c, '<', "&lt;");
      var lt := ReplaceAll(amp, '<', "&lt;");
      if c == '<' {
        LessThanEntityStays();
      } else {
        ReplaceAllOfOne(c, '>', "&gt;");
        var gt := ReplaceAll(lt, '>', "&gt;");
        if c == '>' {
          GreaterThanEntityStays();
        } else {
          ReplaceAllOfOne(c, '"', "&quot;");
          var quot := ReplaceAll(gt, '"', "&quot;");
          if c == '"' {
            ReplaceAllOfPlain("&quot;", '\'', "&#39;");
          } else {
            ReplaceAllOfOne(c, '\'', "&#39;");
          }
        }
      }
    }
  }

  lemma AmpersandEntityStays()
    ensures ReplaceAll(ReplaceAll(ReplaceAll(ReplaceAll("&amp;", '<', "&lt;"), '>', "&gt;"), '"', "&quot;"), '\'', "&#39;") == "&amp;"
  {
    LaterStepsKeep("&amp;");
  }

  lemma LessThanEntityStays()
    ensures ReplaceAll(ReplaceAll(ReplaceAll("&lt;", '>', "&gt;"), '"', "&quot;"), '\'', "&#39;") == "&lt;"
  {
    LaterStepsKeep("&lt;");
    ReplaceAllOfPlain("&lt;", '<', "&lt;");
  }

  lemma GreaterThanEntityStays()
    ensures ReplaceAll(ReplaceAll("&gt;", '"', "&quot;"), '\'', "&#39;") == "&gt;"
  {
    LaterStepsKeep("&gt;");
    ReplaceAllOfPlain("&gt;", '<', "&lt;");
    ReplaceAllOfPlain("&gt;", '>', "&gt;");
  }

  /** An entity passes the replacements of `<`, `>`, `"` and `'` untouched. */
  lemma LaterStepsKeep(e: string)
    requires '<' !in e && '>' !in e && '"' !in e && '\'' !in e
    ensures ReplaceAll(e, '<', "&lt;") == e
    ensures ReplaceAll(e, '>', "&gt;") == e
    ensures ReplaceAll(e, '"', "&quot;") == e
    ensures ReplaceAll(e, '\'', "&#39;") == e
  {
    ReplaceAllOfPlain(e, '<', "&lt;");
    ReplaceAllOfPlain(e, '>', "&gt;");
    ReplaceAllOfPlain(e, '"', "&quot;");
    ReplaceAllOfPlain(e, '\'', "&#39;");
  }

  /** Replacing `&` first means no entity is escaped twice: the chain is the
      same as escaping each character once. */
  lemma {:induction false} ChainIsPerCharacter(s: string)
    ensures EscapeHtml(s) == EscapeEach(s)
  {
    if s != [] {
      assert s == [s[0]] + s[1..];
      EscapeHtmlAppend([s[0]], s[1..]);
      EscapeHtmlOfChar(s[0]);
      ChainIsPerCharacter(s[1..]);
    }
  }

  const Entities: seq<string> := ["&amp;", "&lt;", "&gt;", "&quot;", "&#39;"]

  /** Position `k` of `s` starts one of the five entities. */
  predicate StartsEntity(s: string, k: nat)
    requires k <= |s|
  {
    exists e :: e in Entities && StartsWith(s[k..], e)
  }

  lemma {:induction false} EscapeEachAppend(a: string, b: string)
    ensures EscapeEach(a + b) == EscapeEach(a) + EscapeEach(b)
  {
    if a != [] {
      assert (a + b)[1..] == a[1..] + b;
      EscapeEachAppend(a[1..], b);
    } else {
      assert a + b == b;
    }
  }

  /** No `<`, `>`, `"` or `'`, and each `&` begins an entity. */
  predicate IsSafeText(r: string) {
    && (forall k :: 0 <= k < |r| ==> r[k] != '<' && r[k] != '>' && r[k] != '"' && r[k] != '\'')
    && (forall k :: 0 <= k < |r| && r[k] == '&' ==> StartsEntity(r, k))
  }

  /** The output has no `<`, `>`, `"` or `'`, and each `&` in it begins an entity. */
  lemma {:induction false} EscapedIsSafe(s: string)
    ensures IsSafeText(EscapeHtml(s))
  {
    ChainIsPerCharacter(s);
    EscapeEachIsSafe(s);
  }

  lemma {:induction false} EscapeEachIsSafe(s: string)
    ensures IsSafeText(EscapeEach(s))
  {
    if s != [] {
      EscapeEachIsSafe(s[1..]);
      var head := EscapeChar(s[0]);
      var rest := EscapeEach(s[1..]);
      SafeAfterEntity(s[0], rest);
    }
  }

  lemma SafeAfterEntity(c: char, rest: string)
    requires IsSafeText(rest)
    ensures IsSafeText(EscapeChar(c) + rest)
  {
    var head := EscapeChar(c);
    var r := head + rest;
    forall k | 0 <= k < |r| ensures r[k] != '<' && r[k] != '>' && r[k] != '"' && r[k] != '\'' {
      if k >= |head| {
        assert r[k] == rest[k - |head|];
      }
    }
    forall k | 0 <= k < |r| && r[k] == '&' ensures StartsEntity(r, k) {
      if k < |head| {
        EntityInHead(c, rest, k);
      } else {
        var j := k - |head|;
        assert rest[j] == '&';
        assert StartsEntity(rest, j);
        assert r[k..] == rest[j..];
      }
    }
  }

  /** In the entity of one character only the first position holds `&`, and there it
      begins that entity. */
  lemma EntityInHead(c: char, rest: string, k: nat)
    requires k < |EscapeChar(c)| && EscapeChar(c)[k] == '&'
    ensures k == 0 && StartsEntity(EscapeChar(c) + rest, 0)
  {
    var head := EscapeChar(c);
    var r := head + rest;
    assert r[..|head|] == head;
    assert r[0..] == r;
    assert head in Entities && StartsWith(r[0..], head);
  }

  /** Text with none of the five characters comes back unchanged. */
  lemma PlainTextUnchanged(s: string)
    requires forall k :: 0 <= k < |s| ==> !IsSpecial(s[k])
    ensures EscapeHtml(s) == s
  {
    ChainIsPerCharacter(s);
    PlainEachUnchanged(s);
  }

  lemma {:induction false} PlainEachUnchanged(s: string)
    requires forall k :: 0 <= k < |s| ==> !IsSpecial(s[k])
    ensures EscapeEach(s) == s
  {
    if s != [] {
      PlainEachUnchanged(s[1..]);
    }
  }

  /** How a browser reads the escaped text back: each entity is one character. */
  function Unescape(s: string): string {
    if s == [] then []
    else if StartsWith(s, "&amp;") then "&" + Unescape(s[5..])
    else if StartsWith(s, "&lt;") then "<" + Unescape(s[4..])
    else if StartsWith(s, "&gt;") then ">" + Unescape(s[4..])
    else if StartsWith(s, "&quot;") then "\"" + Unescape(s[6..])
    else if StartsWith(s, "&#39;") then "'" + Unescape(s[5..])
    else [s[0]] + Unescape(s[1..])
  }

  lemma UnescapeHead(c: char, rest: string)
    ensures Unescape(EscapeChar(c) + rest) == [c] + Unescape(rest)
  {
    if c == '&' {
      assert EscapeChar(c) == "&amp;";
      UnescapeAmp(rest);
    } else if c == '<' {
      assert EscapeChar(c) == "&lt;";
      UnescapeLt(rest);
    } else if c == '>' {
      assert EscapeChar(c) == "&gt;";
      UnescapeGt(rest);
    } else if c == '"' {
      assert EscapeChar(c) == "&quot;";
      UnescapeQuot(rest);
    } else if c == '\'' {
      assert EscapeChar(c) == "&#39;";
      UnescapeApos(rest);
    } else {
      assert EscapeChar(c) == [c];
      UnescapePlain(c, rest);
    }
  }

  lemma UnescapePlain(c: char, rest: string)
    requires c != '&'
    ensures Unescape([c] + rest) == [c] + Unescape(rest)
  {
    var s := [c] + rest;
    assert s[0] == c && s[1..] == rest;
  }

  lemma UnescapeAmp(rest: string)
    ensures Unescape("&amp;" + rest) == "&" + Unescape(rest)
  {
    var s := "&amp;" + rest;
    assert s[..5] == "&amp;" && s[5..] == rest;
  }

  lemma UnescapeLt(rest: string)
    ensures Unescape("&lt;" + rest) == "<" + Unescape(rest)
  {
    var s := "&lt;" + rest;
    assert s[1] == 'l';
    assert s[..4] == "&lt;" && s[4..] == rest;
  }

  lemma UnescapeGt(rest: string)
    ensures Unescape("&gt;" + rest) == ">" + Unescape(rest)
  {
    var s := "&gt;" + rest;
    assert s[1] == 'g';
    assert s[..4] == "&gt;" && s[4..] == rest;
  }

  lemma UnescapeQuot(rest: string)
    ensures Unescape("&quot;" + rest) == "\"" + Unescape(rest)
  {
    var s := "&quot;" + rest;
    assert s[1] == 'q';
    assert s[..6] == "&quot;" && s[6..] == rest;
  }

  lemma UnescapeApos(rest: string)
    ensures Unescape("&#39;" + rest) == "'" + Unescape(rest)
  {
    var s := "&#39;" + rest;
    assert s[1] == '#';
    assert s[..5] == "&#39;" && s[5..] == rest;
  }

  /** Escaping loses nothing: the displayed text is the original. */
  lemma {:induction false} UnescapeEscape(s: string)
    ensures Unescape(EscapeHtml(s)) == s
  {
    ChainIsPerCharacter(s);
    UnescapeEach(s);
  }

  lemma {:induction false} UnescapeEach(s: string)
    ensures Unescape(EscapeEach(s)) == s
  {
    if s != [] {
      UnescapeHead(s[0], EscapeEach(s[1..]));
      UnescapeEach(s[1..]);
    }
  }
}
