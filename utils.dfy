/** src/utils.cpp: `escapeJsonString`, which makes text safe inside a JSON string literal. */
module Utils {
  import opened Text

  /** The seven characters `escapeJsonString` rewrites. */
  predicate IsJsonSpecial(c: char) {
    c == '"' || c == '\\' || c == '\U{08}' || c == '\U{0C}' || c == '\n' || c == '\r' || c == '\t'
  }

  function EscapeJsonChar(c: char): string {
    match c
    case '"' => "\\\""
    case '\\' => "\\\\"
    case '\U{08}' => "\\b"
    case '\U{0C}' => "\\f"
    case '\n' => "\\n"
    case '\r' => "\\r"
    case '\t' => "\\t"
    case _ => [c]
  }

  /** What `escapeJsonString` returns. */
  function EscapeJson(s: string): (r: string)
    ensures |r| >= |s|
  {
    if s == [] then [] else EscapeJsonChar(s[0]) + EscapeJson(s[1..])
  }

  /** The character a JSON escape letter stands for. */
  function EscapeLetterValue(c: char): char {
    match c
    case 'b' => '\U{08}'
    case 'f' => '\U{0C}'
    case 'n' => '\n'
    case 'r' => '\r'
    case 't' => '\t'
    case _ => c
  }

  /** A JSON reader's view of the escaped text. */
  function UnescapeJson(s: string): string
    decreases |s|
  {
    if s == [] then []
    else if |s| >= 2 && s[0] == '\\' then [EscapeLetterValue(s[1])] + UnescapeJson(s[2..])
    else [s[0]] + UnescapeJson(s[1..])
  }

  lemma {:induction false} EscapeJsonAppend(a: string, b: string)
    ensures EscapeJson(a + b) == EscapeJson(a) + EscapeJson(b)
  {
    if a == [] {
      assert a + b == b;
    } else {
      assert (a + b)[1..] == a[1..] + b;
      EscapeJsonAppend(a[1..], b);
    }
  }

  /** One extra character per special. */
  lemma {:induction false} EscapeJsonLength(s: string)
    ensures |EscapeJson(s)| == |s| + Count(s, IsJsonSpecial)
  {
    if s != [] {
      EscapeJsonLength(s[1..]);
    }
  }

  /** Text without any of the seven is copied unchanged, other control characters included. */
  lemma {:induction false} EscapeJsonPlain(s: string)
    requires forall k :: 0 <= k < |s| ==> !IsJsonSpecial(s[k])
    ensures EscapeJson(s) == s
  {
    if s != [] {
      EscapeJsonPlain(s[1..]);
      assert EscapeJsonChar(s[0]) == [s[0]];
      assert s == [s[0]] + s[1..];
    }
  }

  /** The escaped text holds no raw line break, tab, backspace or form feed, and every quote
      in it follows a backslash. */
  lemma {:induction false} EscapeJsonSafe(s: string)
    ensures forall k :: 0 <= k < |EscapeJson(s)| ==>
              EscapeJson(s)[k] !in {'\n', '\r', '\t', '\U{08}', '\U{0C}'}
    ensures forall k :: 0 <= k < |EscapeJson(s)| && EscapeJson(s)[k] == '"' ==>
              k > 0 && EscapeJson(s)[k - 1] == '\\'
  {
    if s != [] {
      var head := EscapeJsonChar(s[0]);
      var tail := EscapeJson(s[1..]);
      EscapeJsonSafe(s[1..]);
      forall k | 0 <= k < |EscapeJson(s)|
        ensures EscapeJson(s)[k] !in {'\n', '\r', '\t', '\U{08}', '\U{0C}'}
        ensures EscapeJson(s)[k] == '"' ==> k > 0 && EscapeJson(s)[k - 1] == '\\'
      {
        if k >= |head| {
          assert EscapeJson(s)[k] == tail[k - |head|];
          if k > |head| {
            assert EscapeJson(s)[k - 1] == tail[k - 1 - |head|];
          } else if tail[0] == '"' {
            assert false;
          }
        }
      }
    }
  }

  /** A JSON reader recovers the original text. */
  lemma {:induction false} UnescapeEscapeJson(s: string)
    ensures UnescapeJson(EscapeJson(s)) == s
  {
    if s != [] {
      var c, t := s[0], s[1..];
      var e := EscapeJson(s);
      UnescapeEscapeJson(t);
      if IsJsonSpecial(c) {
        assert e[2..] == EscapeJson(t);
      } else {
        assert EscapeJsonChar(c) == [c];
        assert e[1..] == EscapeJson(t);
      }
      assert s == [c] + t;
    }
  }

  /** `escapeJsonString`. */
  method EscapeJsonString(input: string) returns (output: string)
    ensures output == EscapeJson(input)
  {
    output := "";
    var i := 0;
    while i < |input|
      invariant 0 <= i <= |input|
      invariant output == EscapeJson(input[..i])
    {
      var c := input[i];
      assert input[..i + 1] == input[..i] + [c];
      EscapeJsonAppend(input[..i], [c]);
      assert EscapeJson([c]) == EscapeJsonChar(c);
      if c == '"' {
        output := output + "\\\"";
      } else if c == '\\' {
        output := output + "\\\\";
      } else if c == '\U{08}' {
        output := output + "\\b";
      } else if c == '\U{0C}' {
        output := output + "\\f";
      } else if c == '\n' {
        output := output + "\\n";
      } else if c == '\r' {
        output := output + "\\r";
      } else if c == '\t' {
        output := output + "\\t";
      } else {
        output := output + [c];
      }
      i := i + 1;
    }
    assert input[..|input|] == input;
  }
}
