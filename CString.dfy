/** C strings: text followed by a terminating NUL, and `strlen`. */
module CString {

  const Nul: char := '\0'

  /** `strlen`: the position of the first NUL. */
  function Strlen(s: seq<char>): (n: nat)
    requires Nul in s
    ensures n < |s| && s[n] == Nul
    ensures Nul !in s[..n]
  {
    if s[0] == Nul then 0
    else
      assert Nul in s[1..] by {
        var k :| 0 <= k < |s| && s[k] == Nul;
        assert s[1..][k - 1] == Nul;
      }
      var n := Strlen(s[1..]);
      assert s[..n + 1] == [s[0]] + s[1..][..n];
      n + 1
  }

  /** A buffer holding `text` then a NUL has `strlen` equal to the length of `text`. */
  lemma StrlenOfText(text: string, s: seq<char>)
    requires Nul !in text
    requires |text| < |s| && s[..|text|] == text && s[|text|] == Nul
    ensures Nul in s && Strlen(s) == |text|
  {
    assert Nul in s;
  }

  /**
   * A fresh buffer of `size` characters written with `text` and its NUL, and
   * the `strlen` taken of it afterwards (makiwara.c lines 75-86).
   */
  method StoreText(text: string, size: nat) returns (buffer: array<char>, length: nat)
    requires Nul !in text && |text| < size
    ensures fresh(buffer) && buffer.Length == size
    ensures length == |text| && buffer[..length] == text && buffer[length] == Nul
  {
    buffer := new char[size]((i: nat) => if i < |text| then text[i] else Nul);
    assert buffer[..|text|] == text;
    StrlenOfText(text, buffer[..]);
    length := Strlen(buffer[..]);
  }
}
