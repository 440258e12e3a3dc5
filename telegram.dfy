/** src/TelegramBot.cpp: the Markdown escaping of outgoing messages and what `sendMessage`
    puts on the wire. The HTTP exchange itself is not modelled: whether the server answered
    200 is a parameter. */
module Telegram {
  import opened Wrappers
  import opened Text
  import ConfigCommon

  /** The eighteen characters `escapeMessage` prefixes with a backslash. */
  predicate IsMarkdownSpecial(c: char) {
    c in "_*[]()~`>#+-=|{}.!"
  }

  function EscapeChar(c: char): string {
    if IsMarkdownSpecial(c) then ['\\', c] else [c]
  }

  /** What `escapeMessage` returns. The backslash itself is not among the specials. */
  function Escape(s: string): (r: string)
    ensures |r| >= |s|
    ensures s != [] ==> r != [] && !IsMarkdownSpecial(r[0])
  {
    if s == [] then [] else EscapeChar(s[0]) + Escape(s[1..])
  }

  /** Reads an escaped text back: a backslash followed by a special stands for that special. */
  function Unescape(s: string): string
    decreases |s|
  {
    if s == [] then []
    else if |s| >= 2 && s[0] == '\\' && IsMarkdownSpecial(s[1]) then [s[1]] + Unescape(s[2..])
    else [s[0]] + Unescape(s[1..])
  }

  /** Escaping works character by character, so it distributes over concatenation. */
  lemma {:induction false} EscapeAppend(a: string, b: string)
    ensures Escape(a + b) == Escape(a) + Escape(b)
  {
    if a == [] {
      assert a + b == b;
    } else {
      assert (a + b)[1..] == a[1..] + b;
      EscapeAppend(a[1..], b);
    }
  }

  /** One extra character per special. */
  lemma {:induction false} EscapeLength(s: string)
    ensures |Escape(s)| == |s| + Count(s, IsMarkdownSpecial)
  {
    if s != [] {
      EscapeLength(s[1..]);
    }
  }

  /** A text without specials is sent as it is. */
  lemma {:induction false} EscapePlain(s: string)
    requires forall k :: 0 <= k < |s| ==> !IsMarkdownSpecial(s[k])
    ensures Escape(s) == s
  {
    if s != [] {
      EscapePlain(s[1..]);
      assert s == [s[0]] + s[1..];
    }
  }

  /** In the escaped text every special is right after a backslash. */
  lemma {:induction false} EscapedSpecialsArePrefixed(s: string)
    ensures forall k :: 0 <= k < |Escape(s)| && IsMarkdownSpecial(Escape(s)[k]) ==>
              k > 0 && Escape(s)[k - 1] == '\\'
  {
    if s != [] {
      var head := EscapeChar(s[0]);
      var tail := Escape(s[1..]);
      EscapedSpecialsArePrefixed(s[1..]);
      forall k | 0 <= k < |Escape(s)| && IsMarkdownSpecial(Escape(s)[k])
        ensures k > 0 && Escape(s)[k - 1] == '\\'
      {
        if k >= |head| {
          assert Escape(s)[k] == tail[k - |head|];
          if k > |head| {
            assert Escape(s)[k - 1] == tail[k - 1 - |head|];
          }
        }
      }
    }
  }

  /** The escaping loses nothing: the message is recovered from what is sent. */
  lemma {:induction false} UnescapeEscape(s: string)
    ensures Unescape(Escape(s)) == s
  {
    if s != [] {
      var c, t := s[0], s[1..];
      var e := Escape(s);
      UnescapeEscape(t);
      if IsMarkdownSpecial(c) {
        assert e[2..] == Escape(t);
      } else {
        assert e[1..] == Escape(t);
      }
      assert s == [c] + t;
    }
  }

  /** The request `sendMessage` writes: its target, its form body and its Content-Length. */
  datatype Request = Request(target: string, body: string, contentLength: string)

  class TelegramBot {
    const token: string
    const channel: string

    constructor (token: string, channel: string)
      ensures this.token == token && this.channel == channel
    {
      this.token := token;
      this.channel := channel;
    }

    /** `isEnabled`: both a token and a channel are set. */
    predicate IsEnabled() {
      token != "" && channel != ""
    }

    /** `escapeMessage`. */
    method EscapeMessage(text: string) returns (result: string)
      ensures result == Escape(text)
    {
      result := "";
      var i := 0;
      while i < |text|
        invariant 0 <= i <= |text|
        invariant result == Escape(text[..i])
      {
        var c := text[i];
        assert text[..i + 1] == text[..i] + [c];
        EscapeAppend(text[..i], [c]);
        assert Escape([c]) == EscapeChar(c);
        if IsMarkdownSpecial(c) {
          result := result + ['\\'];
          result := result + [c];
        } else {
          result := result + [c];
        }
        i := i + 1;
      }
      assert text[..|text|] == text;
    }

    /** `sendMessage`: nothing is sent by a bot without a token or a channel; otherwise the
        request carries the escaped message, and the result is whether the server answered
        200 OK (`answeredOk`). */
    method SendMessage(message: string, answeredOk: bool) returns (sent: bool, request: Option<Request>)
      ensures !IsEnabled() ==> !sent && request.None?
      ensures IsEnabled() ==> sent == answeredOk && request.Some?
      ensures request.Some? ==>
                && request.value.target == "/bot" + token + "/sendMessage"
                && request.value.body == "chat_id=" + channel + "&text=" + Escape(message) + "&parse_mode=Markdown"
                && request.value.contentLength == DecimalDigits(|request.value.body|)
    {
      if !IsEnabled() {
        return false, None;
      }
      var escapedMessage := EscapeMessage(message);
      var requestBody := "chat_id=" + channel + "&text=" + escapedMessage + "&parse_mode=Markdown";
      request := Some(Request("/bot" + token + "/sendMessage", requestBody, DecimalDigits(|requestBody|)));
      sent := answeredOk;
    }
  }

  /** A bot built from an accepted command line, as `App` builds it, is enabled exactly when
      a token was given: `AppConfig::validate` lets a token through only with a channel. */
  lemma BotEnabledByToken(cfg: ConfigCommon.AppConfig, bot: TelegramBot)
    requires cfg.Validate().Pass?
    requires bot.token == cfg.telegramToken && bot.channel == cfg.telegramChannel
    ensures bot.IsEnabled() <==> cfg.telegramToken != ""
  {
  }
}
