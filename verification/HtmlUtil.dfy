/** The HTML entity decoder of src/authentication/html_util.cc: it inverts the encoding of its own table, and it
    finishes exactly on the texts in which no ampersand opens an unknown entity. */
module HtmlUtil {
  import opened Basics

  /** HTML_DECODE_MAP. */
  function Decode(entity: string): Option<char> {
    if entity == "&#x2b;" then Some('+')
    else if entity == "&#x3d;" then Some('=')
    else if entity == "&lt;" then Some('<')
    else if entity == "&gt;" then Some('>')
    else if entity == "&amp;" then Some('&')
    else if entity == "&apos;" then Some('\'')
    else if entity == "&quot;" then Some('"')
    else None
  }

  /** Every table entity opens with an ampersand, closes with a semicolon and has neither in between. */
  lemma TableShape(entity: string)
    requires Decode(entity).Some?
    ensures |entity| >= 2 && entity[0] == '&' && entity[|entity| - 1] == ';'
    ensures forall k | 0 < k < |entity| :: entity[k] != '&'
    ensures forall k | 0 <= k < |entity| - 1 :: entity[k] != ';'
  {
  }

  // ---- the loop, one turn at a time ----

  /** The ampersand at `i` has a semicolon behind it, and what they enclose is not in the table. */
  predicate Unknown(html: string, i: nat) {
    && i < |html| && html[i] == '&'
    && var length := IndexOf(html[i..], ';');
       i + length < |html| && Decode(html[i..i + length + 1]).None?
  }

  ghost predicate AllKnown(html: string) {
    forall i | 0 <= i < |html| :: !Unknown(html, i)
  }

  /** The character read at `i` and how much text it took. */
  function Piece(html: string, i: nat): (piece: (char, nat))
    requires i < |html| && !Unknown(html, i)
    ensures 0 < piece.1 && i + piece.1 <= |html|
  {
    var length := IndexOf(html[i..], ';');
    if html[i] != '&' || i + length == |html| then (html[i], 1)
    else (Decode(html[i..i + length + 1]).value, length + 1)
  }

  datatype Scan = Scan(i: nat, out: string)

  /** One turn of the loop; on an unknown entity nothing moves. */
  function Turn(html: string, st: Scan): Scan {
    if st.i >= |html| || Unknown(html, st.i) then st
    else
      var (c, width) := Piece(html, st.i);
      Scan(st.i + width, st.out + [c])
  }

  function Turns(html: string, n: nat): Scan {
    if n == 0 then Scan(0, "") else Turn(html, Turns(html, n - 1))
  }

  // ---- what the loop computes ----

  /** The decoded text from position `i` on. */
  function Decoded(html: string, i: nat): (out: string)
    requires i <= |html| && AllKnown(html)
    ensures |out| <= |html| - i
    decreases |html| - i
  {
    if i == |html| then ""
    else
      assert !Unknown(html, i);
      var (c, width) := Piece(html, i);
      [c] + Decoded(html, i + width)
  }

  lemma DecodedPiece(html: string, i: nat)
    requires i < |html| && AllKnown(html)
    ensures !Unknown(html, i)
    ensures var (c, width) := Piece(html, i); Decoded(html, i) == [c] + Decoded(html, i + width)
  {
    assert !Unknown(html, i);
    hide Decode, IndexOf, Piece, Unknown;
  }

  lemma TurnDecodes(html: string, i: nat)
    requires i < |html| && AllKnown(html)
    ensures var length := IndexOf(html[i..], ';');
            if html[i] != '&' || i + length == |html| then Decoded(html, i) == [html[i]] + Decoded(html, i + 1)
            else
              var entity := Decode(html[i..i + length + 1]);
              entity.Some? && Decoded(html, i) == [entity.value] + Decoded(html, i + length + 1)
  {
    hide Decode, IndexOf, Decoded, AllKnown;
    DecodedPiece(html, i);
  }

  lemma Appended(out: string, c: char, rest: string, whole: string)
    requires whole == [c] + rest
    ensures out + [c] + rest == out + whole
  {
  }

  method EscapeHtmlEntity(html: string) returns (retval: string)
    requires AllKnown(html)
    ensures retval == Decoded(html, 0) && |retval| <= |html|
  {
    hide Decode, IndexOf, AllKnown, Decoded;
    retval := "";
    var i := 0;
    while i < |html|
      invariant i <= |html|
      invariant retval + Decoded(html, i) == Decoded(html, 0)
    {
      TurnDecodes(html, i);
      var c := html[i];
      if c != '&' {
        Appended(retval, c, Decoded(html, i + 1), Decoded(html, i));
        retval := retval + [c];
        i := i + 1;
        continue;
      }
      var length := IndexOf(html[i..], ';');
      if i + length < |html| {
        var code := html[i..i + length + 1];
        if Decode(code).Some? {
          Appended(retval, Decode(code).value, Decoded(html, i + length + 1), Decoded(html, i));
          retval := retval + [Decode(code).value];
          i := i + length + 1;
        }
      } else {
        Appended(retval, c, Decoded(html, i + 1), Decoded(html, i));
        retval := retval + [c];
        i := i + 1;
      }
    }
  }

  // ---- when it finishes ----

  /** An entity read at `i` ends before the next ampersand. */
  lemma PieceStopsAtAmpersand(html: string, i: nat, p: nat)
    requires i < p < |html| && html[p] == '&' && !Unknown(html, i)
    ensures i + Piece(html, i).1 <= p
  {
    hide Decode, IndexOf;
    var width := Piece(html, i).1;
    var e := html[i..i + width];
    if Decode(e).Some? {
      TableShape(e);
      forall q | i < q < i + width ensures html[q] != '&' {
        assert e[q - i] == html[q];
      }
    }
  }

  /** The loop never steps over an unknown entity. */
  lemma {:induction false} StaysBefore(html: string, p: nat, n: nat)
    requires Unknown(html, p)
    ensures Turns(html, n).i <= p
  {
    hide Decode, IndexOf, Piece;
    if n > 0 {
      StaysBefore(html, p, n - 1);
      var i := Turns(html, n - 1).i;
      if i < p && !Unknown(html, i) {
        PieceStopsAtAmpersand(html, i, p);
      }
    }
  }

  lemma {:induction false} Progresses(html: string, n: nat)
    requires AllKnown(html)
    ensures Turns(html, n).i >= n || Turns(html, n).i >= |html|
  {
    hide Decode, IndexOf;
    if n > 0 {
      Progresses(html, n - 1);
      var i := Turns(html, n - 1).i;
      assert i < |html| ==> !Unknown(html, i);
    }
  }

  /** The loop finishes if and only if every ampersand that has a semicolon behind it opens a table entity. */
  lemma FinishesExactlyOnKnown(html: string)
    ensures (exists n: nat :: Turns(html, n).i >= |html|) <==> AllKnown(html)
  {
    if AllKnown(html) {
      Progresses(html, |html|);
    }
    forall n: nat, p: nat | Unknown(html, p) ensures Turns(html, n).i < |html| {
      StaysBefore(html, p, n);
    }
  }

  /** A text on which the loop runs for ever without reading anything. */
  lemma {:induction false} UnknownNeverDecodes(n: nat)
    ensures Unknown("&foo;", 0) && Turns("&foo;", n) == Scan(0, "")
  {
    assert IndexOf("&foo;"[0..], ';') == 4 by {
      assert "&foo;" == "&foo" + [';'] + "" && "&foo;"[0..] == "&foo;";
      IndexOfPrefix("&foo", ';', "");
    }
    assert "&foo;"[0..5] == "&foo;";
    if n > 0 {
      UnknownNeverDecodes(n - 1);
    }
  }

  // ---- what is decoded, and what is not ----

  /** Text up to the next ampersand is copied. */
  lemma {:induction false} PlainIsCopied(html: string, i: nat, n: nat)
    requires i <= n <= |html| && AllKnown(html) && forall k | i <= k < n :: html[k] != '&'
    ensures Decoded(html, i) == html[i..n] + Decoded(html, n)
    decreases n - i
  {
    hide Decode, IndexOf, AllKnown;
    if i == n {
      assert html[i..n] + Decoded(html, n) == Decoded(html, n);
    } else {
      DecodedPiece(html, i);
      PlainIsCopied(html, i + 1, n);
      assert html[i..n] == [html[i]] + html[i + 1..n];
      Associative([html[i]], html[i + 1..n], Decoded(html, n));
    }
  }

  /** Text without a semicolon, ampersands included, decodes to itself. */
  lemma {:induction false} NoSemicolonNoChange(html: string, i: nat)
    requires i <= |html| && ';' !in html
    ensures AllKnown(html) && Decoded(html, i) == html[i..]
    decreases |html| - i
  {
    hide Decode;
    if i < |html| {
      NoSemicolonNoChange(html, i + 1);
      assert IndexOf(html[i..], ';') == |html| - i;
      DecodedPiece(html, i);
      assert html[i..] == [html[i]] + html[i + 1..];
    }
  }

  function HexDigit(c: char): int {
    if '0' <= c <= '9' then c as int - '0' as int
    else if 'a' <= c <= 'f' then c as int - 'a' as int + 10
    else -1
  }

  /** An entity that gives a character by its code gives that character. */
  lemma CodesMeanThemselves(entity: string)
    requires Decode(entity).Some? && |entity| == 6 && entity[..3] == "&#x"
    ensures Decode(entity).value as int == 16 * HexDigit(entity[3]) + HexDigit(entity[4])
  {
    assert entity[1] == entity[..3][1] && entity[1] == '#';
    if entity == "&#x2b;" {
      assert HexDigit('2') == 2 && HexDigit('b') == 11 && '+' as int == 43;
    }
    if entity == "&#x3d;" {
      assert HexDigit('3') == 3 && HexDigit('d') == 13 && '=' as int == 61;
    }
  }

  /** The entities of HTML that the table knows, with the characters HTML gives them. */
  lemma NamedEntities()
    ensures Decode("&lt;") == Some('<') && Decode("&gt;") == Some('>') && Decode("&amp;") == Some('&')
    ensures Decode("&apos;") == Some('\'') && Decode("&quot;") == Some('"')
    ensures Decode("&#x2b;").Some? && Decode("&#x3d;").Some? && Decode("&nbsp;").None?
  {
  }

  // ---- decoding inverts encoding ----

  function Encode(s: string): string {
    if s == "" then "" else EntityOf(s[0]) + Encode(s[1..])
  }

  function EntityOf(c: char): (e: string)
    ensures (e == [c] && c != '&') || Decode(e) == Some(c)
  {
    match c
    case '+' => "&#x2b;"
    case '=' => "&#x3d;"
    case '<' => "&lt;"
    case '>' => "&gt;"
    case '&' => "&amp;"
    case '\'' => "&apos;"
    case '"' => "&quot;"
    case _ => [c]
  }

  lemma EntityAhead(html: string, i: nat, e: string)
    requires Decode(e).Some? && i + |e| <= |html| && html[i..i + |e|] == e
    ensures IndexOf(html[i..], ';') == |e| - 1 && html[i] == '&'
  {
    TableShape(e);
    assert forall k | 0 <= k < |e| :: html[i..][k] == e[k];
  }

  lemma {:induction false} EncodedKnown(before: string, s: string)
    requires forall i | 0 <= i < |before| :: !Unknown(before + Encode(s), i)
    ensures AllKnown(before + Encode(s))
    decreases |s|
  {
    hide Decode, EntityOf, IndexOf;
    if s == "" {
      assert before + Encode(s) == before;
    } else {
      var e := EntityOf(s[0]);
      var html := before + Encode(s);
      assert html == (before + e) + Encode(s[1..]);
      forall i | 0 <= i < |before + e| ensures !Unknown(html, i) {
        if i >= |before| && Decode(e).Some? {
          assert html[|before|..|before| + |e|] == e;
          TableShape(e);
          EntityAhead(html, |before|, e);
          assert html[i] == e[i - |before|];
        }
      }
      EncodedKnown(before + e, s[1..]);
    }
  }

  lemma DecodedStep(html: string, i: nat, c: char)
    requires AllKnown(html)
    requires i + |EntityOf(c)| <= |html| && html[i..i + |EntityOf(c)|] == EntityOf(c)
    ensures Decoded(html, i) == [c] + Decoded(html, i + |EntityOf(c)|)
  {
    hide Decode, EntityOf, IndexOf;
    var e := EntityOf(c);
    if Decode(e).Some? {
      EntityAhead(html, i, e);
    } else {
      assert html[i] == e[0];
    }
  }

  lemma NothingLeft(html: string)
    requires AllKnown(html + "")
    ensures Decoded(html + "", |html|) == ""
  {
    hide AllKnown;
  }

  lemma {:induction false} DecodedFrom(before: string, s: string)
    requires AllKnown(before + Encode(s))
    ensures Decoded(before + Encode(s), |before|) == s
    decreases |s|
  {
    hide Decode, EntityOf, IndexOf, AllKnown, Decoded;
    if s == "" {
      NothingLeft(before);
    }
    var html := before + Encode(s);
    if s != "" {
      var e := EntityOf(s[0]);
      assert html == (before + e) + Encode(s[1..]);
      assert html[|before|..|before| + |e|] == e;
      DecodedFrom(before + e, s[1..]);
      DecodedStep(html, |before|, s[0]);
      assert s == [s[0]] + s[1..];
    }
  }

  /** For every text, decoding its encoding finishes and gives the text back. */
  lemma DecodeInvertsEncode(s: string)
    ensures AllKnown(Encode(s)) && Decoded(Encode(s), 0) == s
  {
    assert "" + Encode(s) == Encode(s);
    EncodedKnown("", s);
    DecodedFrom("", s);
  }
}
