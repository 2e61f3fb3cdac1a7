/** mini-nginx's HTML escaping: five replacements, one after the other. */
module EscapeHtml {
  /** Every occurrence of the character `c` replaced by `r`. */
  function ReplaceAll(s: string, c: char, r: string): string {
    if s == "" then "" else (if s[0] == c then r else [s[0]]) + ReplaceAll(s[1..], c, r)
  }

  function Escape(s: string): string {
    var s1 := ReplaceAll(s, '&', "&amp;");
    var s2 := ReplaceAll(s1, '<', "&lt;");
    var s3 := ReplaceAll(s2, '>', "&gt;");
    var s4 := ReplaceAll(s3, '"', "&quot;");
    ReplaceAll(s4, '\'', "&#39;")
  }

  /** One character's entity, or the character itself. */
  function Entity(c: char): string {
    match c
    case '&' => "&amp;"
    case '<' => "&lt;"
    case '>' => "&gt;"
    case '"' => "&quot;"
    case '\'' => "&#39;"
    case _ => [c]
  }

  function Encode(s: string): string {
    if s == "" then "" else Entity(s[0]) + Encode(s[1..])
  }

  lemma {:induction false} ReplaceConcat(a: string, b: string, c: char, r: string)
    ensures ReplaceAll(a + b, c, r) == ReplaceAll(a, c, r) + ReplaceAll(b, c, r)
  {
    if a == "" {
      assert a + b == b;
    } else {
      assert (a + b)[1..] == a[1..] + b;
      ReplaceConcat(a[1..], b, c, r);
    }
  }

  lemma {:induction false} ReplaceAbsent(s: string, c: char, r: string)
    requires c !in s
    ensures ReplaceAll(s, c, r) == s
  {
    if s != "" {
      ReplaceAbsent(s[1..], c, r);
    }
  }

  lemma ReplaceOne(c: char, d: char, r: string)
    ensures ReplaceAll([c], d, r) == if c == d then r else [c]
  {
  }

  lemma EscapeConcat(a: string, b: string)
    ensures Escape(a + b) == Escape(a) + Escape(b)
  {
    ReplaceConcat(a, b, '&', "&amp;");
    var a1, b1 := ReplaceAll(a, '&', "&amp;"), ReplaceAll(b, '&', "&amp;");
    ReplaceConcat(a1, b1, '<', "&lt;");
    var a2, b2 := ReplaceAll(a1, '<', "&lt;"), ReplaceAll(b1, '<', "&lt;");
    ReplaceConcat(a2, b2, '>', "&gt;");
    var a3, b3 := ReplaceAll(a2, '>', "&gt;"), ReplaceAll(b2, '>', "&gt;");
    ReplaceConcat(a3, b3, '"', "&quot;");
    ReplaceConcat(ReplaceAll(a3, '"', "&quot;"), ReplaceAll(b3, '"', "&quot;"), '\'', "&#39;");
  }

  /** A pass replaces the whole of a one-character string, or passes over it. */
  lemma Pass(s: string, c: char, r: string)
    requires s == [c] || c !in s
    ensures ReplaceAll(s, c, r) == if s == [c] then r else s
  {
  }

  /** Free of the four characters replaced after '&'. */
  predicate Inert(s: string) {
    '<' !in s && '>' !in s && '"' !in s && '\'' !in s
  }

  lemma EntitiesAreInert(c: char)
    ensures Inert(Entity('&')) && Inert(Entity('<')) && Inert(Entity('>')) && Inert(Entity('"')) && Inert(Entity('\''))
    ensures Entity(c) == [c] && c != '&' ==> Inert([c]) && c != '<' && c != '>' && c != '"' && c != '\''
  {
  }

  /** No later replacement touches what an earlier one put in. */
  lemma LaterPasses(s: string, c: char)
    requires s == [c] || Inert(s)
    ensures var angles := ReplaceAll(ReplaceAll(s, '<', Entity('<')), '>', Entity('>'));
            ReplaceAll(ReplaceAll(angles, '"', Entity('"')), '\'', Entity('\''))
            == if s == [c] && (c == '<' || c == '>' || c == '"' || c == '\'') then Entity(c) else s
  {
    EntitiesAreInert(c);
    Pass(s, '<', Entity('<'));
    var s2 := if s == ['<'] then Entity('<') else s;
    Pass(s2, '>', Entity('>'));
    var s3 := if s2 == ['>'] then Entity('>') else s2;
    Pass(s3, '"', Entity('"'));
    var s4 := if s3 == ['"'] then Entity('"') else s3;
    Pass(s4, '\'', Entity('\''));
  }

  lemma EscapeOne(c: char)
    ensures Escape([c]) == Entity(c)
  {
    EntitiesAreInert(c);
    Pass([c], '&', Entity('&'));
    LaterPasses(if c == '&' then Entity('&') else [c], c);
  }

  /** Five characters become their entities, any other stays. */
  lemma EscapeTable(c: char, escaped: string)
    requires escaped == Escape([c])
    ensures escaped == if c == '&' then "&amp;" else if c == '<' then "&lt;" else if c == '>' then "&gt;"
                       else if c == '"' then "&quot;" else if c == '\'' then "&#39;" else [c]
  {
    EscapeOne(c);
  }

  /** The five passes are one pass, character by character. */
  lemma {:induction false} EscapeIsEncode(s: string)
    ensures Escape(s) == Encode(s)
  {
    if s != "" {
      assert s == [s[0]] + s[1..];
      EscapeConcat([s[0]], s[1..]);
      EscapeOne(s[0]);
      EscapeIsEncode(s[1..]);
    }
  }

  predicate StartsWith(s: string, prefix: string) {
    prefix <= s
  }

  /** Reads the five entities back; anything else stands for itself. */
  function Decode(s: string): string {
    if s == "" then ""
    else if StartsWith(s, "&amp;") then "&" + Decode(s[5..])
    else if StartsWith(s, "&lt;") then "<" + Decode(s[4..])
    else if StartsWith(s, "&gt;") then ">" + Decode(s[4..])
    else if StartsWith(s, "&quot;") then "\"" + Decode(s[6..])
    else if StartsWith(s, "&#39;") then "'" + Decode(s[5..])
    else s[..1] + Decode(s[1..])
  }

  lemma DecodeOne(c: char, rest: string)
    ensures Decode(Entity(c) + rest) == [c] + Decode(rest)
  {
    var s := Entity(c) + rest;
    assert s[|Entity(c)|..] == rest;
    if c == '<' || c == '>' || c == '"' || c == '\'' {
      assert s[1] != 'a';
      assert c == '>' ==> s[1] != 'l';
      assert c == '"' ==> s[1] != 'l' && s[1] != 'g';
      assert c == '\'' ==> s[1] != 'l' && s[1] != 'g' && s[1] != 'q';
    } else if c != '&' {
      assert s[0] != '&' && s[..1] == [c];
    }
  }

  /** Decoding an escaped string gives the string back. */
  lemma {:induction false} DecodeEscape(s: string)
    ensures Decode(Escape(s)) == s
  {
    EscapeIsEncode(s);
    if s != "" {
      DecodeOne(s[0], Encode(s[1..]));
      EscapeIsEncode(s[1..]);
      DecodeEscape(s[1..]);
    }
  }

  /** So two names never look the same in the listing. */
  lemma EscapeInjective(a: string, b: string)
    requires Escape(a) == Escape(b)
    ensures a == b
  {
    DecodeEscape(a);
    DecodeEscape(b);
  }

  lemma EntityIsInert(c: char)
    ensures Inert(Entity(c))
  {
    EntitiesAreInert(c);
  }

  /** Nothing that could open a tag or end an attribute survives. */
  lemma {:induction false} NoMarkupLeft(s: string)
    ensures Inert(Escape(s))
  {
    EscapeIsEncode(s);
    if s != "" {
      EntityIsInert(s[0]);
      NoMarkupLeft(s[1..]);
      EscapeIsEncode(s[1..]);
    }
  }

  // ---------- with '&' replaced last ----------

  function EscapeAmpersandLast(s: string): string {
    var s1 := ReplaceAll(s, '<', "&lt;");
    var s2 := ReplaceAll(s1, '>', "&gt;");
    var s3 := ReplaceAll(s2, '"', "&quot;");
    var s4 := ReplaceAll(s3, '\'', "&#39;");
    ReplaceAll(s4, '&', "&amp;")
  }

  lemma AmpersandLastConcat(a: string, b: string)
    ensures EscapeAmpersandLast(a + b) == EscapeAmpersandLast(a) + EscapeAmpersandLast(b)
  {
    ReplaceConcat(a, b, '<', "&lt;");
    var a1, b1 := ReplaceAll(a, '<', "&lt;"), ReplaceAll(b, '<', "&lt;");
    ReplaceConcat(a1, b1, '>', "&gt;");
    var a2, b2 := ReplaceAll(a1, '>', "&gt;"), ReplaceAll(b1, '>', "&gt;");
    ReplaceConcat(a2, b2, '"', "&quot;");
    var a3, b3 := ReplaceAll(a2, '"', "&quot;"), ReplaceAll(b2, '"', "&quot;");
    ReplaceConcat(a3, b3, '\'', "&#39;");
    ReplaceConcat(ReplaceAll(a3, '\'', "&#39;"), ReplaceAll(b3, '\'', "&#39;"), '&', "&amp;");
  }

  /** The '&' of an entity already put in is escaped again. */
  lemma AmpersandLastOne(c: char)
    ensures EscapeAmpersandLast([c]) == if Inert([c]) then Entity(c) else "&amp;" + Entity(c)[1..]
  {
    LaterPasses([c], c);
    if Inert([c]) {
      Pass([c], '&', Entity('&'));
    } else {
      EntityHasOneAmpersand(c);
      AmpersandAgain(Entity(c)[1..]);
    }
  }

  lemma EntityHasOneAmpersand(c: char)
    requires !Inert([c])
    ensures Entity(c) == "&" + Entity(c)[1..] && '&' !in Entity(c)[1..]
  {
  }

  lemma AmpersandAgain(tail: string)
    requires '&' !in tail
    ensures ReplaceAll("&" + tail, '&', "&amp;") == "&amp;" + tail
  {
    ReplaceConcat("&", tail, '&', "&amp;");
    ReplaceOne('&', '&', "&amp;");
    ReplaceAbsent(tail, '&', "&amp;");
  }

  lemma InertSplits(s: string)
    requires s != ""
    ensures Inert(s) <==> Inert([s[0]]) && Inert(s[1..])
  {
    assert s == [s[0]] + s[1..];
  }

  lemma {:induction false} AmpersandLastIsLonger(s: string)
    ensures Inert(s) ==> EscapeAmpersandLast(s) == Escape(s)
    ensures !Inert(s) ==> |EscapeAmpersandLast(s)| > |Escape(s)|
    ensures |EscapeAmpersandLast(s)| >= |Escape(s)|
  {
    if s != "" {
      assert s == [s[0]] + s[1..];
      AmpersandLastConcat([s[0]], s[1..]);
      EscapeConcat([s[0]], s[1..]);
      AmpersandLastOne(s[0]);
      EscapeOne(s[0]);
      AmpersandLastIsLonger(s[1..]);
      InertSplits(s);
    }
  }

  /** It rests on '&' going first: replaced last, it spoils exactly the strings that
      have one of the other four characters in them. */
  lemma AmpersandMustGoFirst(s: string)
    ensures EscapeAmpersandLast(s) == Escape(s) <==> Inert(s)
  {
    AmpersandLastIsLonger(s);
  }
}
