/**
 * The two precomputed responses of the server (makiwara.c lines 25-32 and
 * 82-86): `sprintf` of the fixed format `response_fmt` with the body
 * length, a `Connection` value and the body.
 *
 * The format ends its lines with a bare "\n", not the CRLF of section 2.1
 * of RFC 9112; the model keeps "\n" exactly.
 */
module HttpResponse {
  import opened Wrappers
  import opened Decimal
  import opened Printf
  import opened LineReader

  const StatusLine: string := "HTTP/1.1 200 OK"
  const ServerLine: string := Field("Server", "makiwara/0.0.1")
  const TypeLine: string := Field("Content-Type", "text/html")
  const RangesLine: string := Field("Accept-Ranges", "bytes")

  /** The text of `response_fmt` before `%d`: status line and headers up to `Content-Length: `. */
  const Head: string := StatusLine + "\n" + ServerLine + "\n" + TypeLine + "\n" + "Content-Length" + ": "

  /** The text of `response_fmt` between `%d` and the first `%s`. */
  const Middle: string := "\n" + "Connection" + ": "

  /** The text of `response_fmt` between the two `%s`: the last header line and the empty line. */
  const Tail: string := "\n" + RangesLine + "\n" + "\n"

  /** The format `response_fmt`, cut at its three conversions `%d`, `%s`, `%s`. */
  const Template: seq<Piece> := [Lit(Head), IntConv, Lit(Middle), StrConv, Lit(Tail), StrConv]

  /** The format `response_fmt` as the C string literal spells it. */
  const ResponseFmt: string := Spell(Template)

  /** The two `Connection` values the server sends (section 7.6.1 of RFC 9110). */
  const ConnClose: string := "close"
  const ConnKeepAlive: string := "keep-alive"

  /**
   * `sprintf(response, response_fmt, body_length, conn, body)`
   * (makiwara.c lines 82-83): the format's text with the rendered body
   * length, the `Connection` value and the body in place of the conversions.
   */
  function BuildResponse(body: string, conn: string): (r: string)
    ensures r == Head + Render(|body|) + Middle + conn + Tail + body
  {
    TemplateFormat(|body|, conn, body);
    Format(Template, [IntArg(|body|), StrArg(conn), StrArg(body)])
  }

  /** A format shaped like `response_fmt`: text, `%d`, text, `%s`, text, `%s`. */
  lemma ShapeFormat(h: string, m: string, tl: string, n: nat, conn: string, body: string)
    ensures var t, args := [Lit(h), IntConv, Lit(m), StrConv, Lit(tl), StrConv],
                          [IntArg(n), StrArg(conn), StrArg(body)];
      && Conforms(t, args)
      && Conversions(t) == 3
      && Spell(t) == h + "%d" + m + "%s" + tl + "%s"
      && Format(t, args) == h + Render(n) + m + conn + tl + body
  {
    var t3, a3 := [StrConv, Lit(tl), StrConv], [StrArg(conn), StrArg(body)];
    ShapeTail(conn, tl, body);
    ShapeMiddle(n, m, t3, a3);
    var t1, a1 := [IntConv, Lit(m)] + t3, [IntArg(n)] + a3;
    FormatLit(h, t1, a1);
    assert [Lit(h)] + t1 == [Lit(h), IntConv, Lit(m), StrConv, Lit(tl), StrConv];
  }

  /** The end of `response_fmt`'s shape: `%s`, text, `%s`. */
  lemma ShapeTail(conn: string, tl: string, body: string)
    ensures var t, args := [StrConv, Lit(tl), StrConv], [StrArg(conn), StrArg(body)];
      && Conforms(t, args)
      && Conversions(t) == 2
      && Spell(t) == "%s" + tl + "%s"
      && Format(t, args) == conn + tl + body
  {
    assert Conforms([], []) && Format([], []) == [] && Spell([]) == [] && Conversions([]) == 0;
    FormatStr(body, [], []);
    assert [StrConv] + [] == [StrConv] && [StrArg(body)] + [] == [StrArg(body)];
    FormatLit(tl, [StrConv], [StrArg(body)]);
    FormatStr(conn, [Lit(tl), StrConv], [StrArg(body)]);
  }

  /** `%d` and text in front of a conforming format. */
  lemma ShapeMiddle(n: nat, m: string, t: seq<Piece>, args: seq<Arg>)
    requires Conforms(t, args)
    ensures Conforms([IntConv, Lit(m)] + t, [IntArg(n)] + args)
    ensures Conversions([IntConv, Lit(m)] + t) == Conversions(t) + 1
    ensures Spell([IntConv, Lit(m)] + t) == "%d" + m + Spell(t)
    ensures Format([IntConv, Lit(m)] + t, [IntArg(n)] + args) == Render(n) + m + Format(t, args)
  {
    FormatLit(m, t, args);
    assert [IntConv, Lit(m)] + t == [IntConv] + ([Lit(m)] + t);
    FormatInt(n, [Lit(m)] + t, args);
  }

  /**
   * Both `sprintf` calls pass arguments that match the conversions of
   * `response_fmt`, and the text written is the format's text with the three
   * values in place of the conversions.
   */
  lemma TemplateFormat(n: nat, conn: string, body: string)
    ensures Conforms(Template, [IntArg(n), StrArg(conn), StrArg(body)])
    ensures Conversions(Template) == 3
    ensures ResponseFmt == Head + "%d" + Middle + "%s" + Tail + "%s"
    ensures Format(Template, [IntArg(n), StrArg(conn), StrArg(body)])
         == Head + Render(n) + Middle + conn + Tail + body
  {
    ShapeFormat(Head, Middle, Tail, n, conn, body);
  }

  /** `response_fmt` is the C literal of makiwara.c lines 25-32, character for character. */
  lemma FmtText()
    ensures ResponseFmt == "HTTP/1.1 200 OK\nServer: makiwara/0.0.1\nContent-Type: text/html\nContent-Length: %d\nConnection: %s\nAccept-Ranges: bytes\n\n%s"
  {
    assert ResponseFmt == Head + "%d" + Middle + "%s" + Tail + "%s" by {
      TemplateFormat(0, [], []);
    }
    HeadText();
    MiddleTailText();
    SpellFmt();
  }

  /** The three pieces of the C literal put together with their conversions. */
  lemma SpellFmt()
    ensures "HTTP/1.1 200 OK\nServer: makiwara/0.0.1\nContent-Type: text/html\nContent-Length: " + "%d" + "\nConnection: " + "%s" + "\nAccept-Ranges: bytes\n\n" + "%s"
         == "HTTP/1.1 200 OK\nServer: makiwara/0.0.1\nContent-Type: text/html\nContent-Length: %d\nConnection: %s\nAccept-Ranges: bytes\n\n%s"
  {
  }

  /** The status line and the `Server` line, as the C literal spells them. */
  lemma JoinStatusServer()
    ensures "HTTP/1.1 200 OK" + "\n" + "Server: makiwara/0.0.1" + "\n" == "HTTP/1.1 200 OK\nServer: makiwara/0.0.1\n"
  {
  }

  /** Those two lines followed by the `Content-Type` line and the name `Content-Length`. */
  lemma JoinTypeLength()
    ensures "HTTP/1.1 200 OK\nServer: makiwara/0.0.1\n" + "Content-Type: text/html" + "\n" + "Content-Length" + ": "
         == "HTTP/1.1 200 OK\nServer: makiwara/0.0.1\nContent-Type: text/html\nContent-Length: "
  {
  }

  /** The texts of `response_fmt` after `%d` and between the two `%s`, as the C literal spells them. */
  lemma MiddleTailText()
    ensures Middle == "\nConnection: " && Tail == "\nAccept-Ranges: bytes\n\n"
  {
    assert RangesLine == "Accept-Ranges: bytes";
  }

  /** The text of `response_fmt` before `%d`, as the C literal spells it. */
  lemma HeadText()
    ensures Head == "HTTP/1.1 200 OK\nServer: makiwara/0.0.1\nContent-Type: text/html\nContent-Length: "
  {
    assert ServerLine == "Server: makiwara/0.0.1";
    assert TypeLine == "Content-Type: text/html";
    JoinStatusServer();
    JoinTypeLength();
  }

  /** `strlen(response_fmt)` is 121. */
  lemma FmtLength()
    ensures |ResponseFmt| == 121
  {
    TemplateFormat(0, [], []);
  }

  /**
   * The response's length is that of `response_fmt` less the six characters
   * of the three conversions plus the lengths of the three values.
   */
  lemma ResponseLength(body: string, conn: string)
    ensures |BuildResponse(body, conn)| == |ResponseFmt| - 6 + |Render(|body|)| + |conn| + |body|
  {
    TemplateFormat(|body|, conn, body);
  }

  /**
   * The response and its terminating NUL fit in the allocation of
   * `strlen(response_fmt) + body_length + 16` characters (makiwara.c lines
   * 75-76): the length has at most ten digits and the `Connection` value at
   * most ten characters.
   */
  lemma ResponseFits(body: string, conn: string)
    requires |body| <= MaxCInt
    requires |conn| <= 10
    ensures |BuildResponse(body, conn)| + 1 <= |ResponseFmt| + |body| + 16
  {
    ResponseLength(body, conn);
    RenderWidthCInt(|body|);
  }

  /**
   * The close and keep-alive responses are the same text except for the
   * `Connection` value, so the keep-alive one is five characters longer
   * (makiwara.c lines 82-86).
   */
  lemma VariantsDiffer(body: string)
    ensures var c, k, p := BuildResponse(body, ConnClose), BuildResponse(body, ConnKeepAlive),
                          |Head| + |Render(|body|)| + |Middle|;
      && |k| == |c| + 5
      && p + 5 <= |c|
      && c[..p] == k[..p]
      && c[p..p + 5] == ConnClose
      && k[p..p + 10] == ConnKeepAlive
      && c[p + 5..] == k[p + 10..]
  {
    var pre := Head + Render(|body|) + Middle;
    Split(pre, ConnClose, Tail, body);
    Split(pre, ConnKeepAlive, Tail, body);
  }

  lemma Split(pre: string, mid: string, tl: string, body: string)
    ensures var s := pre + mid + tl + body;
      && s[..|pre|] == pre
      && s[|pre|..|pre| + |mid|] == mid
      && s[|pre| + |mid|..] == tl + body
  {
  }

  /**
   * The header lines of a response whose body is `n` characters long. The
   * lemmas about the header text are proved over `Lines`, with the rendered
   * length as a plain parameter: stated over `Render(n)` directly, the
   * string literals of the lines make the same proofs far costlier.
   */
  function HeaderLines(n: nat, conn: string): seq<string>
  {
    Lines(Render(n), conn)
  }

  lemma JoinSix(a: string, b: string, c: string, d: string, e: string, f: string)
    ensures JoinLines([a, b, c, d, e, f]) == a + "\n" + b + "\n" + c + "\n" + d + "\n" + e + "\n" + f + "\n"
  {
    var ls := [a, b, c, d, e, f];
    assert JoinLines(ls[5..]) == f + "\n" by { assert ls[5..][1..] == []; }
    assert JoinLines(ls[4..]) == e + "\n" + JoinLines(ls[5..]) by { assert ls[4..][1..] == ls[5..]; }
    assert JoinLines(ls[3..]) == d + "\n" + JoinLines(ls[4..]) by { assert ls[3..][1..] == ls[4..]; }
    assert JoinLines(ls[2..]) == c + "\n" + JoinLines(ls[3..]) by { assert ls[2..][1..] == ls[3..]; }
    assert JoinLines(ls[1..]) == b + "\n" + JoinLines(ls[2..]) by { assert ls[1..][1..] == ls[2..]; }
  }

  /** The response is its status line and header lines, an empty line, then the body. */
  lemma ResponseLines(body: string, conn: string)
    ensures BuildResponse(body, conn)
         == JoinLines([StatusLine] + HeaderLines(|body|, conn)) + "\n" + body
  {
    var d := Render(|body|);
    JoinSix(StatusLine, ServerLine, TypeLine, Field("Content-Length", d), Field("Connection", conn), RangesLine);
    LinesRegroup(StatusLine, ServerLine, TypeLine, "Content-Length", d, "Connection", conn, RangesLine, body);
  }

  lemma LinesRegroup(s: string, f1: string, f2: string, n3: string, v3: string,
                     n4: string, v4: string, f5: string, body: string)
    ensures s + "\n" + f1 + "\n" + f2 + "\n" + Field(n3, v3) + "\n" + Field(n4, v4) + "\n" + f5 + "\n" + "\n" + body
         == (s + "\n" + f1 + "\n" + f2 + "\n" + n3 + ": ") + v3 + ("\n" + n4 + ": ") + v4 + ("\n" + f5 + "\n" + "\n") + body
  {
  }

  /** The header lines of a response, with the length already rendered as `d` (see `HeaderLines`). */
  function Lines(d: string, conn: string): seq<string>
  {
    [ServerLine, TypeLine, Field("Content-Length", d), Field("Connection", conn), RangesLine]
  }

  /**
   * A client reading either response finds the status line, the five header
   * lines in the format's order, and after the empty line the body
   * unchanged; this holds for every `Connection` value that is one line.
   */
  lemma ReadBack(body: string, conn: string)
    requires '\n' !in conn
    ensures ReadResponse(BuildResponse(body, conn))
         == Some(Message(StatusLine, HeaderLines(|body|, conn), body))
  {
    var d := Render(|body|);
    ResponseLines(body, conn);
    assert '\n' !in d by {
      assert forall i :: 0 <= i < |d| ==> d[i] != '\n';
    }
    ReadBackLines(d, conn, body);
  }

  lemma ReadBackLines(d: string, conn: string, body: string)
    requires '\n' !in d && '\n' !in conn
    ensures ReadResponse(JoinLines([StatusLine] + Lines(d, conn)) + "\n" + body)
         == Some(Message(StatusLine, Lines(d, conn), body))
  {
    FieldOneLine("Server", "makiwara/0.0.1");
    FieldOneLine("Content-Type", "text/html");
    FieldOneLine("Content-Length", d);
    FieldOneLine("Connection", conn);
    FieldOneLine("Accept-Ranges", "bytes");
    assert '\n' !in StatusLine;
    ReadResponseJoin(StatusLine, Lines(d, conn), body);
  }

  /**
   * The `Content-Length` header carries the decimal rendering of the body's
   * length and reads back as that length (section 8.6 of RFC 9110); the
   * `Connection` header carries the value passed.
   */
  lemma HeadersCarryValues(body: string, conn: string)
    ensures HeaderValue(HeaderLines(|body|, conn), "Content-Length") == Some(Render(|body|))
    ensures HeaderValue(HeaderLines(|body|, conn), "Connection") == Some(conn)
    ensures ValueOf(Render(|body|)) == |body|
  {
    LookUpLines(Render(|body|), conn);
    RenderRoundTrip(|body|);
  }

  lemma LookUpLines(d: string, conn: string)
    ensures HeaderValue(Lines(d, conn), "Content-Length") == Some(d)
    ensures HeaderValue(Lines(d, conn), "Connection") == Some(conn)
  {
    var rest := [RangesLine];
    var l4 := [Field("Connection", conn)] + rest;
    var l3 := [Field("Content-Length", d)] + l4;
    var l2 := [Field("Content-Type", "text/html")] + l3;
    assert Lines(d, conn) == [Field("Server", "makiwara/0.0.1")] + l2;
    HeaderValueCons("Server", "makiwara/0.0.1", l2, "Content-Length");
    HeaderValueCons("Content-Type", "text/html", l3, "Content-Length");
    HeaderValueCons("Content-Length", d, l4, "Content-Length");
    HeaderValueCons("Server", "makiwara/0.0.1", l2, "Connection");
    HeaderValueCons("Content-Type", "text/html", l3, "Connection");
    HeaderValueCons("Content-Length", d, l4, "Connection");
    HeaderValueCons("Connection", conn, rest, "Connection");
  }

  /**
   * A body and a `Connection` value without NUL give a response without NUL,
   * so `strlen` of the written buffer is the response's length.
   */
  lemma ResponseHasNoNul(body: string, conn: string)
    requires '\0' !in body && '\0' !in conn
    ensures '\0' !in BuildResponse(body, conn)
  {
    var d := Render(|body|);
    assert '\0' !in d by {
      assert forall i :: 0 <= i < |d| ==> d[i] != '\0';
    }
    FixedTextHasNoNul();
    AbsentFromParts('\0', Head, d, Middle, conn, Tail, body);
  }

  lemma FixedTextHasNoNul()
    ensures '\0' !in Head && '\0' !in Middle && '\0' !in Tail
  {
    assert '\0' !in StatusLine && '\0' !in ServerLine && '\0' !in TypeLine && '\0' !in RangesLine;
  }

  lemma AbsentFromParts(x: char, a: string, b: string, c: string, d: string, e: string, f: string)
    requires x !in a && x !in b && x !in c && x !in d && x !in e && x !in f
    ensures x !in a + b + c + d + e + f
  {
  }

  /**
   * With the body `<html></html>` the keep-alive response reads back with
   * `Content-Length: 13`, `Connection: keep-alive` and the body unchanged.
   */
  lemma HtmlBodyExample()
    ensures var r := ReadResponse(BuildResponse("<html></html>", ConnKeepAlive));
      && r.Some? && r.value.body == "<html></html>"
      && HeaderValue(r.value.headers, "Content-Length") == Some("13")
      && HeaderValue(r.value.headers, "Connection") == Some("keep-alive")
  {
    var body := "<html></html>";
    assert |body| == 13;
    assert Render(13) == "13" by {
      assert Render(1) == "1";
    }
    ReadBack(body, ConnKeepAlive);
    HeadersCarryValues(body, ConnKeepAlive);
  }

  /**
   * For every body and one-line `Connection` value, a client reading the
   * response finds the `Content-Length` that reads back as the body's
   * length, the `Connection` value passed, and the body unchanged.
   */
  lemma ClientReadsResponse(body: string, conn: string)
    requires '\n' !in conn
    ensures var r := ReadResponse(BuildResponse(body, conn));
      && r.Some?
      && HeaderValue(r.value.headers, "Content-Length") == Some(Render(|body|))
      && ValueOf(Render(|body|)) == |body|
      && HeaderValue(r.value.headers, "Connection") == Some(conn)
      && r.value.body == body
  {
    var r := ReadResponse(BuildResponse(body, conn));
    var h := HeaderLines(|body|, conn);
    ReadBack(body, conn);
    HeadersCarryValues(body, conn);
    CarryOver(r, Message(StatusLine, h, body), "Content-Length", Some(Render(|body|)), "Connection", Some(conn));
  }

  /** Two header lookups on a message carry over to a read that yields that message. */
  lemma CarryOver(r: Option<Message>, m: Message, k1: string, v1: Option<string>, k2: string, v2: Option<string>)
    requires r == Some(m)
    requires HeaderValue(m.headers, k1) == v1 && HeaderValue(m.headers, k2) == v2
    ensures r.Some? && HeaderValue(r.value.headers, k1) == v1 && HeaderValue(r.value.headers, k2) == v2
    ensures r.value.body == m.body
  {
  }
}
