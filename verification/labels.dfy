/**
 * The normalisation applied to every issue number fetched from the remote
 * catalogue before it is stored: commas and semicolons, the delimiters of the
 * snapshot format, are replaced by fixed tokens, and line breaks are removed.
 * Nothing ever turns the tokens back into the original characters.
 */
module Labels {
  import opened Text

  /** The four chained `str.replace` calls, in their order. */
  function Escape(raw: string): (r: string)
    ensures ',' !in r && ';' !in r && '\n' !in r && '\r' !in r
  {
    var s1 := Replace(raw, ',', ".&@1");
    var s2 := Replace(s1, ';', ".&@2");
    ReplaceKeepsOut(s1, ';', ".&@2", ',');
    var s3 := Replace(s2, '\n', "");
    ReplaceKeepsOut(s2, '\n', "", ',');
    ReplaceKeepsOut(s2, '\n', "", ';');
    ReplaceKeepsOut(s3, '\r', "", ',');
    ReplaceKeepsOut(s3, '\r', "", ';');
    ReplaceKeepsOut(s3, '\r', "", '\n');
    Replace(s3, '\r', "")
  }

  /** An independent, one-character-at-a-time reading of the same substitution. */
  function EscapeChar(c: char): string
  {
    if c == ',' then ".&@1"
    else if c == ';' then ".&@2"
    else if c == '\n' || c == '\r' then ""
    else [c]
  }

  function EscapeEach(raw: string): string
  {
    if raw == [] then "" else EscapeChar(raw[0]) + EscapeEach(raw[1..])
  }

  lemma EscapeAppend(a: string, b: string)
    ensures Escape(a + b) == Escape(a) + Escape(b)
  {
    ReplaceAppend(a, b, ',', ".&@1");
    var a1, b1 := Replace(a, ',', ".&@1"), Replace(b, ',', ".&@1");
    ReplaceAppend(a1, b1, ';', ".&@2");
    var a2, b2 := Replace(a1, ';', ".&@2"), Replace(b1, ';', ".&@2");
    ReplaceAppend(a2, b2, '\n', "");
    var a3, b3 := Replace(a2, '\n', ""), Replace(b2, '\n', "");
    ReplaceAppend(a3, b3, '\r', "");
  }

  lemma ReplaceOne(c: char, x: char, repl: string)
    ensures Replace([c], x, repl) == if c == x then repl else [c]
  {
    assert [c][1..] == [];
  }

  /** A character whose first stage yields a token the later stages leave alone. */
  lemma EscapeToken(c: char, token: string)
    requires Replace([c], ',', ".&@1") == token
    requires ';' !in token && '\n' !in token && '\r' !in token
    ensures Escape([c]) == token
  {
    ReplaceAbsent(token, ';', ".&@2");
    ReplaceAbsent(token, '\n', "");
    ReplaceAbsent(token, '\r', "");
  }

  lemma EscapeComma()
    ensures Escape(",") == ".&@1"
  {
    ReplaceOne(',', ',', ".&@1");
    EscapeToken(',', ".&@1");
  }

  lemma EscapeSemicolon()
    ensures Escape(";") == ".&@2"
  {
    var token := ".&@2";
    ReplaceOne(';', ',', ".&@1");
    ReplaceOne(';', ';', token);
    ReplaceAbsent(token, '\n', "");
    ReplaceAbsent(token, '\r', "");
  }

  lemma EscapeBreak(c: char)
    requires c == '\n' || c == '\r'
    ensures Escape([c]) == ""
  {
    ReplaceOne(c, ',', ".&@1");
    ReplaceOne(c, ';', ".&@2");
    ReplaceOne(c, '\n', "");
    if c == '\n' {
      ReplaceAbsent("", '\r', "");
    } else {
      ReplaceOne(c, '\r', "");
    }
  }

  /** The four stages applied to one character: at most one of them changes it. */
  lemma EscapeOne(c: char)
    ensures Escape([c]) == EscapeChar(c)
  {
    if c == ',' {
      EscapeComma();
    } else if c == ';' {
      EscapeSemicolon();
    } else if c == '\n' || c == '\r' {
      EscapeBreak(c);
    } else {
      EscapeKeepsPlain([c]);
    }
  }

  /**
   * Every `,` becomes `.&@1`, every `;` becomes `.&@2`, every line break is
   * dropped and every other character is kept, in order.
   */
  lemma {:induction false} EscapeIsCharwise(raw: string)
    ensures Escape(raw) == EscapeEach(raw)
  {
    if raw != [] {
      assert raw == [raw[0]] + raw[1..];
      EscapeAppend([raw[0]], raw[1..]);
      EscapeOne(raw[0]);
      EscapeIsCharwise(raw[1..]);
    }
  }

  /** An issue number free of the four characters is stored as it is. */
  lemma EscapeKeepsPlain(raw: string)
    requires ',' !in raw && ';' !in raw && '\n' !in raw && '\r' !in raw
    ensures Escape(raw) == raw
  {
    ReplaceAbsent(raw, ',', ".&@1");
    ReplaceAbsent(raw, ';', ".&@2");
    ReplaceAbsent(raw, '\n', "");
    ReplaceAbsent(raw, '\r', "");
  }

  /**
   * The substitution is not reversible: an issue number with a comma (such as
   * "1,5") and the one that already spells the token in its place ("1.&@15")
   * are stored the same.
   */
  lemma {:induction false} EscapeIsLossy(a: string, b: string)
    requires ',' !in a && ';' !in a && '\n' !in a && '\r' !in a
    requires ',' !in b && ';' !in b && '\n' !in b && '\r' !in b
    ensures a + "," + b != a + ".&@1" + b
    ensures Escape(a + "," + b) == Escape(a + ".&@1" + b) == a + ".&@1" + b
  {
    assert (a + "," + b)[|a|] == ',' != (a + ".&@1" + b)[|a|];
    EscapeKeepsPlain(a + ".&@1" + b);
    EscapeAppend(a + ",", b);
    EscapeAppend(a, ",");
    EscapeOne(',');
    EscapeKeepsPlain(a);
    EscapeKeepsPlain(b);
  }
}
