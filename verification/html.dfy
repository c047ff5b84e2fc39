/** The two inline HTML escapers and the 200-character excerpt of
    backend/routes/contact.js, together with an entity decoder that gives
    the escapers something to be checked against. */
module Html {

  /** Global replacement of every occurrence of the character `c` by `rep`,
      as a regular expression with the global flag does it. */
  function ReplaceAll(s: string, c: char, rep: string): (r: string)
    ensures c !in s ==> r == s
    ensures c !in rep ==> c !in r
    ensures forall d :: d in r ==> (d in s && d != c) || d in rep
    ensures |s| == 1 ==> r == (if s[0] == c then rep else s)
  {
    if s == [] then []
    else (if s[0] == c then rep else [s[0]]) + ReplaceAll(s[1..], c, rep)
  }

  /** Replacing is done piece by piece. */
  lemma {:induction false} ReplaceAllAppend(a: string, b: string, c: char, rep: string)
    ensures ReplaceAll(a + b, c, rep) == ReplaceAll(a, c, rep) + ReplaceAll(b, c, rep)
  {
    if a == [] {
      assert a + b == b;
    } else {
      assert (a + b)[1..] == a[1..] + b;
      ReplaceAllAppend(a[1..], b, c, rep);
    }
  }

  const Lt: string := "&lt;"
  const Gt: string := "&gt;"
  const Amp: string := "&amp;"

  /** The reply body escape (contact.js line 193): only `<` and `>`. */
  function EscapeAngles(s: string): (r: string)
    ensures '<' !in r && '>' !in r
    ensures '<' !in s && '>' !in s ==> r == s
  {
    ReplaceAll(ReplaceAll(s, '<', Lt), '>', Gt)
  }

  /** The admin notification escape (contact.js line 360): `&` first, then `<`, then `>`. */
  function EscapeHtml(s: string): (r: string)
    ensures '<' !in r && '>' !in r
    ensures '&' !in s && '<' !in s && '>' !in s ==> r == s
  {
    ReplaceAll(ReplaceAll(ReplaceAll(s, '&', Amp), '<', Lt), '>', Gt)
  }

  /** The character reference each character is written as. */
  function Entity(c: char): string
  {
    if c == '&' then Amp else if c == '<' then Lt else if c == '>' then Gt else [c]
  }

  /** Escaping character by character. */
  function EncodeChars(s: string): string
  {
    if s == [] then [] else Entity(s[0]) + EncodeChars(s[1..])
  }

  /** Reading back the three character references `&amp;`, `&lt;`, `&gt;`
      the way a mail client renders them; every other character stands for itself. */
  function HtmlDecode(s: string): string
    decreases |s|
  {
    if s == [] then []
    else if Amp <= s then "&" + HtmlDecode(s[|Amp|..])
    else if Lt <= s then "<" + HtmlDecode(s[|Lt|..])
    else if Gt <= s then ">" + HtmlDecode(s[|Gt|..])
    else [s[0]] + HtmlDecode(s[1..])
  }

  /** The chained global replaces of line 360 escape each character on its own. */
  lemma {:induction false} EscapeHtmlPerChar(s: string)
    ensures EscapeHtml(s) == EncodeChars(s)
  {
    if s != [] {
      var c, t := s[0], s[1..];
      assert s == [c] + t;
      ReplaceAllAppend([c], t, '&', Amp);
      ReplaceAllAppend(ReplaceAll([c], '&', Amp), ReplaceAll(t, '&', Amp), '<', Lt);
      ReplaceAllAppend(ReplaceAll(ReplaceAll([c], '&', Amp), '<', Lt), ReplaceAll(ReplaceAll(t, '&', Amp), '<', Lt), '>', Gt);
      EscapeOneChar(c);
      EscapeHtmlPerChar(t);
    }
  }

  lemma EscapeOneChar(c: char)
    ensures EscapeHtml([c]) == Entity(c)
  {
    var a := ReplaceAll([c], '&', Amp);
    assert a == (if c == '&' then Amp else [c]);
    if c == '&' {
      assert '<' !in Amp && '>' !in Amp;
    } else {
      assert ReplaceAll(a, '<', Lt) == (if c == '<' then Lt else [c]);
      if c == '<' {
        assert '>' !in Lt;
      }
    }
  }

  /** Decoding undoes one escaped character in front of anything. */
  lemma DecodeEntity(c: char, rest: string)
    ensures HtmlDecode(Entity(c) + rest) == [c] + HtmlDecode(rest)
  {
    var x := Entity(c) + rest;
    if c == '&' {
      assert Amp <= x && x[|Amp|..] == rest;
    } else if c == '<' {
      assert !(Amp <= x) by { assert x[1] == 'l'; }
      assert Lt <= x && x[|Lt|..] == rest;
    } else if c == '>' {
      assert !(Amp <= x) by { assert x[1] == 'g'; }
      assert !(Lt <= x) by { assert x[1] == 'g'; }
      assert Gt <= x && x[|Gt|..] == rest;
    } else {
      assert x[0] == c && x[1..] == rest;
      assert !(Amp <= x) && !(Lt <= x) && !(Gt <= x) by { assert x[0] != '&'; }
    }
  }

  /** The notification escape loses nothing: the recipient reads back
      exactly the text the visitor wrote. */
  lemma {:induction false} EscapeHtmlRoundTrip(s: string)
    ensures HtmlDecode(EscapeHtml(s)) == s
  {
    EscapeHtmlPerChar(s);
    EncodeRoundTrip(s);
  }

  lemma {:induction false} EncodeRoundTrip(s: string)
    ensures HtmlDecode(EncodeChars(s)) == s
  {
    if s != [] {
      DecodeEntity(s[0], EncodeChars(s[1..]));
      EncodeRoundTrip(s[1..]);
    }
  }

  /** The reference the reply escape writes for a character: only `<` and `>` change. */
  function AngleEntity(c: char): string
  {
    if c == '<' then Lt else if c == '>' then Gt else [c]
  }

  /** The reply escape, character by character. */
  function EncodeAngles(s: string): string
  {
    if s == [] then [] else AngleEntity(s[0]) + EncodeAngles(s[1..])
  }

  /** The two chained global replaces of line 193 escape each character on its own. */
  lemma {:induction false} EscapeAnglesPerChar(s: string)
    ensures EscapeAngles(s) == EncodeAngles(s)
  {
    if s != [] {
      var c, t := s[0], s[1..];
      assert s == [c] + t;
      ReplaceAllAppend([c], t, '<', Lt);
      ReplaceAllAppend(ReplaceAll([c], '<', Lt), ReplaceAll(t, '<', Lt), '>', Gt);
      EscapeAnglesPerChar(t);
    }
  }

  /** Without an `&` in the reply, the reply escape coincides with the full one. */
  lemma EscapeAnglesWithoutAmp(s: string)
    ensures '&' !in s ==> EscapeAngles(s) == EscapeHtml(s)
    ensures '&' !in s ==> HtmlDecode(EscapeAngles(s)) == s
  {
    if '&' !in s {
      EscapeHtmlRoundTrip(s);
    }
  }

  /** Because `&` is left alone, two different replies can produce the same
      HTML: the text `&lt;` is shown to the recipient as `<`. */
  lemma EscapeAnglesConflates()
    ensures EscapeAngles("<") == EscapeAngles(Lt)
    ensures HtmlDecode(EscapeAngles(Lt)) == "<"
  {
    assert ReplaceAll("<", '<', Lt) == Lt + ReplaceAll([], '<', Lt);
    assert ReplaceAll(Lt, '>', Gt) == Lt;
    assert HtmlDecode(Lt) == "<" + HtmlDecode([]);
  }

  const ExcerptLength: nat := 200
  const Ellipsis: string := "..."

  /** The quote of the original message in the reply (line 199): its first
      200 characters, followed by an ellipsis only when something was cut. */
  function Excerpt(m: string): (r: string)
    ensures |m| <= ExcerptLength ==> r == m
    ensures |m| > ExcerptLength ==> |r| == ExcerptLength + |Ellipsis| && r[..ExcerptLength] == m[..ExcerptLength] && r[ExcerptLength..] == Ellipsis
    ensures |r| <= ExcerptLength + |Ellipsis|
  {
    if |m| > ExcerptLength then m[..ExcerptLength] + Ellipsis else m
  }
}
