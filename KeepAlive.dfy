/**
 * The keep-alive heuristic of `read_cb` (makiwara.c lines 159-164): the
 * received bytes are scanned for a "\n" immediately followed by the 22
 * characters "Connection: Keep-Alive", compared by `strncasecmp`, that is
 * letter case ignored in the C locale. It is not a header parser: the
 * text may sit anywhere after a line end, and nothing after it is looked at.
 *
 * Characters stand for the bytes of the request.
 */
module KeepAlive {

  /** `BUFFER_SIZE`: the most bytes one `recv` delivers. */
  const BufferSize: nat := 1024

  /** `keep_alive_str`. */
  const KeepAliveStr: string := "Connection: Keep-Alive"

  /** `keep_alive_length`, which is `strlen(keep_alive_str)` (makiwara.c line 88). */
  lemma KeepAliveLength()
    ensures |KeepAliveStr| == 22
  {
  }

  predicate IsUpper(c: char) {
    'A' <= c <= 'Z'
  }

  predicate IsLower(c: char) {
    'a' <= c <= 'z'
  }

  /**
   * `tolower` in the C locale: the result is never an upper-case letter, it
   * is a letter exactly when `c` is one, and a letter keeps its identity
   * (it is `c` itself or `c` in the other case); everything else is kept.
   */
  function ToLower(c: char): (r: char)
    ensures !IsUpper(r)
    ensures IsLower(r) <==> IsUpper(c) || IsLower(c)
    ensures r == c || (IsUpper(c) && r == OtherCase(c))
  {
    if IsUpper(c) then (c as int + 32) as char else c
  }

  /** The same ASCII letter in the other case. */
  function OtherCase(c: char): char
    requires IsUpper(c) || IsLower(c)
  {
    if IsUpper(c) then (c as int + 32) as char else (c as int - 32) as char
  }

  /**
   * `strncasecmp(s, t, |t|) == 0` for an `s` with at least `|t|` characters:
   * equal lengths, and each character equal, or the same letter in the other case.
   */
  predicate SameIgnoringCase(s: seq<char>, t: seq<char>)
    ensures SameIgnoringCase(s, t) <==>
      (|s| == |t| && forall i :: 0 <= i < |s| ==> s[i] == t[i] || ((IsUpper(t[i]) || IsLower(t[i])) && s[i] == OtherCase(t[i])))
  {
    |s| == |t| && forall i :: 0 <= i < |s| ==> ToLower(s[i]) == ToLower(t[i])
  }

  /** Two characters compare equal ignoring case exactly when they are equal or are one letter in two cases. */
  lemma ToLowerEqual(x: char, c: char)
    ensures ToLower(x) == ToLower(c) <==> x == c || ((IsUpper(c) || IsLower(c)) && x == OtherCase(c))
  {
  }

  /** Folding is idempotent, and folds a lower-case letter's other case back to it. */
  lemma ToLowerFolds(c: char)
    ensures ToLower(ToLower(c)) == ToLower(c)
    ensures IsLower(c) ==> ToLower(OtherCase(c)) == c
  {
  }

  /** In the keep-alive text the colon, the space and the hyphen must match exactly. */
  lemma SeparatorsExact(s: seq<char>)
    requires SameIgnoringCase(s, KeepAliveStr)
    ensures s[10] == ':' && s[11] == ' ' && s[16] == '-'
  {
    assert KeepAliveStr[10] == ':' && KeepAliveStr[11] == ' ' && KeepAliveStr[16] == '-';
    assert ToLower(s[10]) == ToLower(KeepAliveStr[10]);
    assert ToLower(s[11]) == ToLower(KeepAliveStr[11]);
    assert ToLower(s[16]) == ToLower(KeepAliveStr[16]);
  }

  /** The keep-alive text starts at position `k` of the request. */
  predicate MatchesAt(req: seq<char>, k: int)
  {
    0 <= k && k + |KeepAliveStr| <= |req| && SameIgnoringCase(req[k..k + |KeepAliveStr|], KeepAliveStr)
  }

  /** Position `i` of the request is a "\n" followed by the keep-alive text. */
  predicate KeepAliveAt(req: seq<char>, i: int)
  {
    0 <= i < |req| && req[i] == '\n' && MatchesAt(req, i + 1)
  }

  /** The request asks for keep-alive in the server's loose sense. */
  predicate HasKeepAlive(req: seq<char>)
  {
    exists i :: 0 <= i < |req| && KeepAliveAt(req, i)
  }

  /**
   * The scan of `read_cb`: the first `i < read` where `buffer[i]` is "\n"
   * and the keep-alive text follows within the received bytes.
   */
  method FindKeepAlive(buffer: array<char>, read: int) returns (found: bool, at: int)
    requires 0 <= read <= buffer.Length
    ensures found <==> HasKeepAlive(buffer[..read])
    ensures found ==> KeepAliveAt(buffer[..read], at)
    ensures found ==> forall j :: 0 <= j < at ==> !KeepAliveAt(buffer[..read], j)
  {
    var i := 0;
    while i < read
      invariant 0 <= i <= read
      invariant forall j :: 0 <= j < i ==> !KeepAliveAt(buffer[..read], j)
    {
      if buffer[i] == '\n' && MatchesAt(buffer[..read], i + 1) {
        assert KeepAliveAt(buffer[..read], i);
        return true, i;
      }
      i := i + 1;
    }
    return false, -1;
  }

  /** Every "\n" followed by the keep-alive text in any letter case is recognised. */
  lemma RecognisedAnywhere(before: seq<char>, text: seq<char>, after: seq<char>)
    requires SameIgnoringCase(text, KeepAliveStr)
    ensures KeepAliveAt(before + "\n" + text + after, |before|)
  {
    var req := before + "\n" + text + after;
    assert req[|before| + 1..|before| + 1 + |KeepAliveStr|] == text;
  }

  /** The request of the keep-alive scenario is recognised, at the line end before its third line. */
  lemma KeepAliveRequestRecognised()
    ensures HasKeepAlive("GET / HTTP/1.1\r\nHost: x\r" + "\n" + "Connection: Keep-Alive" + "\r\n\r\n")
  {
    RecognisedAnywhere("GET / HTTP/1.1\r\nHost: x\r", KeepAliveStr, "\r\n\r\n");
  }

  /** The text is matched in any letter case. */
  lemma LowerCaseRecognised()
    ensures HasKeepAlive("GET / HTTP/1.1\r" + "\n" + "connection: keep-alive" + "\r\n\r\n")
  {
    var text := "connection: keep-alive";
    assert SameIgnoringCase(text, KeepAliveStr);
    RecognisedAnywhere("GET / HTTP/1.1\r", text, "\r\n\r\n");
  }

  /** A request shorter than the "\n" and the keep-alive text together is never recognised. */
  lemma ShortRequestNotRecognised(req: seq<char>)
    requires |req| <= |KeepAliveStr|
    ensures !HasKeepAlive(req)
  {
  }

  /**
   * The test `read_cb` makes at position `i` as the C code is written:
   * `strncasecmp(buffer + i + 1, ...)` reads the stack buffer itself, so the
   * characters past the `read` received ones are whatever the buffer held
   * before. Stated for the positions where those characters lie inside the
   * buffer; past its end the C code reads outside the array.
   */
  predicate KeepAliveAtAsWritten(buffer: seq<char>, read: int, i: int)
  {
    0 <= i < read && i < |buffer| && buffer[i] == '\n' && MatchesAt(buffer, i + 1)
  }

  /**
   * A buffer that still holds an earlier request: the current request is
   * the single received line end, and the keep-alive text after it was left
   * over from before.
   */
  function StaleBuffer(): (b: seq<char>)
    ensures |b| == BufferSize
  {
    "\n" + KeepAliveStr + seq(BufferSize - 1 - |KeepAliveStr|, _ => ' ')
  }

  /**
   * As written, the scan answers keep-alive for a request that does not ask
   * for it, from bytes it did not receive; the scan of the model, which
   * looks only at the received bytes, does not.
   */
  lemma StaleBytesMatch()
    ensures KeepAliveAtAsWritten(StaleBuffer(), 1, 0)
    ensures !HasKeepAlive(StaleBuffer()[..1])
  {
    var b := StaleBuffer();
    assert b[1..1 + |KeepAliveStr|] == KeepAliveStr;
  }
}
