/** The gateway's HTML escaper: five global replacements, one after the other. */
module HtmlEscape {
  import opened Text

  function EscapeHtml(text: string): string {
    var t1 := ReplaceAll(text, '&', "&amp;");
    var t2 := ReplaceAll(t1, '<', "&lt;");
    var t3 := ReplaceAll(t2, '>', "&gt;");
    var t4 := ReplaceAll(t3, '"', "&quot;");
    ReplaceAll(t4, '\'', "&#x27;")
  }

  /** What each character has to become. */
  function Entity(c: char): string {
    match c
    case '&' => "&amp;"
    case '<' => "&lt;"
    case '>' => "&gt;"
    case '"' => "&quot;"
    case '\'' => "&#x27;"
    case _ => [c]
  }

  function Substitute(text: string): string {
    if text == "" then "" else Entity(text[0]) + Substitute(text[1..])
  }

  lemma PlusIsAssociative(a: string, b: string, c: string)
    ensures a + (b + c) == (a + b) + c
  {
  }

  lemma {:induction false} ReplaceConcat(a: string, b: string, c: char, put: string)
    ensures ReplaceAll(a + b, c, put) == ReplaceAll(a, c, put) + ReplaceAll(b, c, put)
  {
    if a == "" {
      assert a + b == b;
    } else {
      ReplaceConcat(a[1..], b, c, put);
      assert (a + b)[0] == a[0] && (a + b)[1..] == a[1..] + b;
      PlusIsAssociative(Replace(a[0], c, put), ReplaceAll(a[1..], c, put), ReplaceAll(b, c, put));
    }
  }

  lemma EscapeConcat(a: string, b: string)
    ensures EscapeHtml(a + b) == EscapeHtml(a) + EscapeHtml(b)
  {
    var a1, b1 := ReplaceAll(a, '&', "&amp;"), ReplaceAll(b, '&', "&amp;");
    var a2, b2 := ReplaceAll(a1, '<', "&lt;"), ReplaceAll(b1, '<', "&lt;");
    var a3, b3 := ReplaceAll(a2, '>', "&gt;"), ReplaceAll(b2, '>', "&gt;");
    var a4, b4 := ReplaceAll(a3, '"', "&quot;"), ReplaceAll(b3, '"', "&quot;");
    ReplaceConcat(a, b, '&', "&amp;");
    ReplaceConcat(a1, b1, '<', "&lt;");
    ReplaceConcat(a2, b2, '>', "&gt;");
    ReplaceConcat(a3, b3, '"', "&quot;");
    ReplaceConcat(a4, b4, '\'', "&#x27;");
  }

  lemma ReplaceOne(c: char, d: char, put: string)
    ensures ReplaceAll([c], d, put) == if c == d then put else [c]
  {
    assert [c][1..] == "";
    assert ReplaceAll([c], d, put) == Replace(c, d, put) + "";
  }

  lemma AmpersandOnly()
    ensures EscapeHtml(['&']) == "&amp;"
  {
    ReplaceOne('&', '&', "&amp;");
    NothingFurther("&amp;");
  }

  lemma NothingFurther(t: string)
    requires forall i | 0 <= i < |t| :: t[i] !in {'<', '>', '"', '\''}
    ensures var t3 := ReplaceAll(ReplaceAll(t, '<', "&lt;"), '>', "&gt;");
            ReplaceAll(ReplaceAll(t3, '"', "&quot;"), '\'', "&#x27;") == t
  {
    ReplaceNothing(t, '<', "&lt;");
    ReplaceNothing(t, '>', "&gt;");
    ReplaceNothing(t, '"', "&quot;");
    ReplaceNothing(t, '\'', "&#x27;");
  }

  lemma LessOnly()
    ensures EscapeHtml(['<']) == "&lt;"
  {
    ReplaceOne('<', '&', "&amp;");
    ReplaceOne('<', '<', "&lt;");
    ReplaceNothing("&lt;", '>', "&gt;");
    ReplaceNothing("&lt;", '"', "&quot;");
    ReplaceNothing("&lt;", '\'', "&#x27;");
  }

  lemma GreaterOnly()
    ensures EscapeHtml(['>']) == "&gt;"
  {
    ReplaceOne('>', '&', "&amp;");
    ReplaceOne('>', '<', "&lt;");
    ReplaceOne('>', '>', "&gt;");
    ReplaceNothing("&gt;", '"', "&quot;");
    ReplaceNothing("&gt;", '\'', "&#x27;");
  }

  lemma QuoteOnly()
    ensures EscapeHtml(['"']) == "&quot;"
  {
    ReplaceOne('"', '&', "&amp;");
    ReplaceOne('"', '<', "&lt;");
    ReplaceOne('"', '>', "&gt;");
    ReplaceOne('"', '"', "&quot;");
    ReplaceNothing("&quot;", '\'', "&#x27;");
  }

  lemma ApostropheOnly()
    ensures EscapeHtml(['\'']) == "&#x27;"
  {
    ReplaceOne('\'', '&', "&amp;");
    ReplaceOne('\'', '<', "&lt;");
    ReplaceOne('\'', '>', "&gt;");
    ReplaceOne('\'', '"', "&quot;");
    ReplaceOne('\'', '\'', "&#x27;");
  }

  /** The order of the passes matters: an entity made by one pass holds nothing a later pass replaces. */
  lemma EscapeOne(c: char)
    ensures EscapeHtml([c]) == Entity(c)
  {
    if c == '&' {
      AmpersandOnly();
    } else if c == '<' {
      LessOnly();
    } else if c == '>' {
      GreaterOnly();
    } else if c == '"' {
      QuoteOnly();
    } else if c == '\'' {
      ApostropheOnly();
    } else {
      ReplaceOne(c, '&', "&amp;");
      ReplaceOne(c, '<', "&lt;");
      ReplaceOne(c, '>', "&gt;");
      ReplaceOne(c, '"', "&quot;");
      ReplaceOne(c, '\'', "&#x27;");
    }
  }

  /** The five passes are one substitution, character by character. */
  lemma {:induction false} FivePassesAreOne(text: string)
    ensures EscapeHtml(text) == Substitute(text)
  {
    if text != "" {
      FivePassesAreOne(text[1..]);
      assert text == [text[0]] + text[1..];
      EscapeConcat([text[0]], text[1..]);
      EscapeOne(text[0]);
    }
  }

  lemma {:induction false} SubstituteIsClean(text: string)
    ensures forall c | c in Substitute(text) :: c != '<' && c != '>' && c != '"' && c != '\''
  {
    if text != "" {
      SubstituteIsClean(text[1..]);
    }
  }

  /** No character that opens markup or ends an attribute is left. */
  lemma EscapedIsClean(text: string)
    ensures forall c | c in EscapeHtml(text) :: c != '<' && c != '>' && c != '"' && c != '\''
  {
    FivePassesAreOne(text);
    SubstituteIsClean(text);
  }

  // ---- Decoding -------------------------------------------------------------------------------

  predicate StartsWith(s: string, prefix: string) {
    |prefix| <= |s| && s[..|prefix|] == prefix
  }

  /** The character at the front of an encoded text, and how much of the text stands for it. */
  function Front(s: string): (r: (char, nat))
    requires s != ""
    ensures 1 <= r.1 <= |s|
  {
    if StartsWith(s, "&amp;") then ('&', 5)
    else if StartsWith(s, "&lt;") then ('<', 4)
    else if StartsWith(s, "&gt;") then ('>', 4)
    else if StartsWith(s, "&quot;") then ('"', 6)
    else if StartsWith(s, "&#x27;") then ('\'', 6)
    else (s[0], 1)
  }

  /** A browser's reading of the five entities. */
  function Decode(s: string): string {
    if s == "" then "" else [Front(s).0] + Decode(s[Front(s).1..])
  }

  /** An entity at the front is the one that is decoded: no two agree on their second and third characters. */
  lemma FrontOfEntity(c: char, s: string, rest: string)
    requires s == Entity(c) + rest
    ensures Front(s) == (c, |Entity(c)|)
  {
    if |Entity(c)| > 1 {
      DecodeFirst(s, Entity(c), rest);
    } else {
      assert s[0] == c;
    }
  }

  lemma DecodeEntity(c: char, rest: string)
    ensures Decode(Entity(c) + rest) == [c] + Decode(rest)
  {
    var s := Entity(c) + rest;
    FrontOfEntity(c, s, rest);
    assert s[|Entity(c)|..] == rest;
  }

  lemma DecodeFirst(s: string, e: string, rest: string)
    requires s == e + rest && |e| >= 4
    ensures StartsWith(s, e) && s[|e|..] == rest
    ensures forall prefix: string :: |prefix| >= 3 && (prefix[1] != e[1] || prefix[2] != e[2]) ==>
      !StartsWith(s, prefix)
  {
    assert s[1] == e[1] && s[2] == e[2];
  }

  /** Nothing is lost: the escaped text decodes to the original, so distinct texts stay distinct. */
  lemma {:induction false} DecodeInverts(text: string)
    ensures Decode(EscapeHtml(text)) == text
  {
    FivePassesAreOne(text);
    if text != "" {
      DecodeInverts(text[1..]);
      FivePassesAreOne(text[1..]);
      DecodeEntity(text[0], Substitute(text[1..]));
      assert text == [text[0]] + text[1..];
    }
  }
}
