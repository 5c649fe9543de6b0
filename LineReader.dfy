/**
 * How a client reads a response written with "\n" line ends: lines up to
 * the first empty line, then the body; and a header line `name: value`
 * split at its first colon. This is the reference against which the
 * response builder is proved.
 */
module LineReader {
  import opened Wrappers

  /** The text of `s` before its first `sep` and the text after it; none when `sep` does not occur. */
  function Cut(s: string, sep: char): (r: Option<(string, string)>)
    ensures r.Some? ==> |r.value.1| < |s|
  {
    if s == [] then None
    else if s[0] == sep then Some(([], s[1..]))
    else match Cut(s[1..], sep)
      case None => None
      case Some((before, after)) => Some(([s[0]] + before, after))
  }

  /** Cutting text that has no `sep` before the first one recovers both sides. */
  lemma {:induction false} CutJoin(before: string, sep: char, after: string)
    requires sep !in before
    ensures Cut(before + [sep] + after, sep) == Some((before, after))
  {
    if before != [] {
      assert (before + [sep] + after)[1..] == before[1..] + [sep] + after;
      CutJoin(before[1..], sep, after);
      assert [before[0]] + before[1..] == before;
    }
  }

  /** The lines of a head, each followed by "\n". */
  function JoinLines(lines: seq<string>): string
  {
    if lines == [] then [] else lines[0] + "\n" + JoinLines(lines[1..])
  }

  /** The lines of `s` before its first empty line, and the text after that empty line. */
  function ReadHead(s: string): Option<(seq<string>, string)>
    decreases |s|
  {
    match Cut(s, '\n')
    case None => None
    case Some((line, rest)) =>
      if line == [] then Some(([], rest))
      else match ReadHead(rest)
        case None => None
        case Some((lines, body)) => Some(([line] + lines, body))
  }

  /**
   * Reading the joined text of non-empty single lines, followed by an empty
   * line and a body, recovers the lines and the body unchanged.
   */
  lemma {:induction false} ReadHeadJoin(lines: seq<string>, body: string)
    requires forall i :: 0 <= i < |lines| ==> lines[i] != [] && '\n' !in lines[i]
    ensures ReadHead(JoinLines(lines) + "\n" + body) == Some((lines, body))
  {
    if lines == [] {
      assert JoinLines(lines) + "\n" + body == [] + ['\n'] + body;
      CutJoin([], '\n', body);
    } else {
      var rest := JoinLines(lines[1..]) + "\n" + body;
      assert JoinLines(lines) + "\n" + body == lines[0] + ['\n'] + rest;
      CutJoin(lines[0], '\n', rest);
      ReadHeadJoin(lines[1..], body);
      assert [lines[0]] + lines[1..] == lines;
    }
  }

  /** A header line: a name, a colon, a space, the value. */
  function Field(name: string, value: string): string
  {
    name + ": " + value
  }

  /** The value of the first header line whose name is `name`. */
  function HeaderValue(headers: seq<string>, name: string): Option<string>
  {
    if headers == [] then None
    else match Cut(headers[0], ':')
      case Some((key, rest)) =>
        if key == name && rest != [] && rest[0] == ' ' then Some(rest[1..])
        else HeaderValue(headers[1..], name)
      case None => HeaderValue(headers[1..], name)
  }

  /** A field line is read back as its name and value. */
  lemma FieldRead(name: string, value: string)
    requires ':' !in name
    ensures Cut(Field(name, value), ':') == Some((name, " " + value))
  {
    assert Field(name, value) == name + [':'] + (" " + value);
    CutJoin(name, ':', " " + value);
  }

  /** A response as a client reads it: the status line, the header lines and the body. */
  datatype Message = Message(status: string, headers: seq<string>, body: string)

  function ReadResponse(s: string): Option<Message>
  {
    match ReadHead(s)
    case Some((lines, body)) =>
      if lines == [] then None else Some(Message(lines[0], lines[1..], body))
    case None => None
  }

  /** A field line with no "\n" in its name or value is a single line. */
  lemma FieldOneLine(name: string, value: string)
    requires '\n' !in name && '\n' !in value
    ensures '\n' !in Field(name, value)
  {
  }

  /** Looking a name up in headers that start with a field line: that field if its name matches, else the rest. */
  lemma HeaderValueCons(name: string, value: string, rest: seq<string>, key: string)
    requires ':' !in name
    ensures HeaderValue([Field(name, value)] + rest, key)
         == if name == key then Some(value) else HeaderValue(rest, key)
  {
    FieldRead(name, value);
    assert ([Field(name, value)] + rest)[1..] == rest;
  }

  /** Reading a response made of single, non-empty lines, an empty line and a body gives them back. */
  lemma ReadResponseJoin(status: string, headers: seq<string>, body: string)
    requires status != [] && '\n' !in status
    requires forall i :: 0 <= i < |headers| ==> headers[i] != [] && '\n' !in headers[i]
    ensures ReadResponse(JoinLines([status] + headers) + "\n" + body) == Some(Message(status, headers, body))
  {
    var lines := [status] + headers;
    assert forall i :: 0 <= i < |lines| ==> lines[i] != [] && '\n' !in lines[i] by {
      forall i | 0 <= i < |lines| ensures lines[i] != [] && '\n' !in lines[i] {
        if i > 0 { assert lines[i] == headers[i - 1]; }
      }
    }
    ReadHeadJoin(lines, body);
    assert lines[1..] == headers;
  }
}
