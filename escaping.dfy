/**
 * Escaping a commit message before it is embedded in the double-quoted
 * `-m "..."` argument of the `git commit` command line. Each script chains two
 * `str.replace` calls; each chain equals one left-to-right pass over the
 * characters, lengthens the message by a fixed amount per special character,
 * and can be undone.
 */
module Escaping {
  import opened Text

  // ----- The full variant -----

  /** `message.replace('"', '\\"').replace('$', '\\$')` */
  function EscapeFull(msg: string): string {
    ReplaceChar(ReplaceChar(msg, '"', "\\\""), '$', "\\$")
  }

  function EscapeFullChar(c: char): string {
    if c == '"' then "\\\"" else if c == '$' then "\\$" else [c]
  }

  /** The same escaping as one pass over the characters. */
  function EscapeFullPass(msg: string): string {
    if msg == [] then [] else EscapeFullChar(msg[0]) + EscapeFullPass(msg[1..])
  }

  lemma {:induction false} EscapeFullIsOnePass(msg: string)
    ensures EscapeFull(msg) == EscapeFullPass(msg)
  {
    if msg != [] {
      EscapeFullIsOnePass(msg[1..]);
      var head := if msg[0] == '"' then "\\\"" else [msg[0]];
      assert ReplaceChar(msg, '"', "\\\"") == head + ReplaceChar(msg[1..], '"', "\\\"");
      ReplaceCharAppend(head, ReplaceChar(msg[1..], '"', "\\\""), '$', "\\$");
      if msg[0] == '"' {
        ReplaceCharAbsent(head, '$', "\\$");
      } else {
        assert ReplaceChar(head, '$', "\\$") == EscapeFullChar(msg[0]);
      }
    }
  }

  /** Every `"` and every `$` gains one backslash; nothing else changes length. */
  lemma {:induction false} EscapeFullLength(msg: string)
    ensures |EscapeFull(msg)| == |msg| + CountChar(msg, '"') + CountChar(msg, '$')
  {
    EscapeFullIsOnePass(msg);
    EscapeFullPassLength(msg);
  }

  lemma {:induction false} EscapeFullPassLength(msg: string)
    ensures |EscapeFullPass(msg)| == |msg| + CountChar(msg, '"') + CountChar(msg, '$')
  {
    if msg != [] {
      EscapeFullPassLength(msg[1..]);
    }
  }

  /** Reads `\"` as `"` and `\$` as `$`, every other character as itself. */
  function UnescapeFull(s: string): string {
    if s == [] then []
    else if |s| >= 2 && s[0] == '\\' && (s[1] == '"' || s[1] == '$') then [s[1]] + UnescapeFull(s[2..])
    else [s[0]] + UnescapeFull(s[1..])
  }

  /** An escaped message never starts with a bare `"` or `$`. */
  lemma EscapeFullPassHead(msg: string)
    requires EscapeFullPass(msg) != []
    ensures EscapeFullPass(msg)[0] != '"' && EscapeFullPass(msg)[0] != '$'
  {
  }

  lemma {:induction false} EscapeFullPassRoundTrip(msg: string)
    ensures UnescapeFull(EscapeFullPass(msg)) == msg
  {
    if msg != [] {
      var rest := EscapeFullPass(msg[1..]);
      EscapeFullPassRoundTrip(msg[1..]);
      var e := EscapeFullChar(msg[0]) + rest;
      if msg[0] == '"' || msg[0] == '$' {
        assert e[0] == '\\' && e[1] == msg[0] && e[2..] == rest;
      } else {
        if rest != [] {
          EscapeFullPassHead(msg[1..]);
        }
        assert e[0] == msg[0] && e[1..] == rest;
      }
      assert msg == [msg[0]] + msg[1..];
    }
  }

  /** Escaping loses nothing: the message can be read back from its escaped form. */
  lemma EscapeFullRoundTrip(msg: string)
    ensures UnescapeFull(EscapeFull(msg)) == msg
  {
    EscapeFullIsOnePass(msg);
    EscapeFullPassRoundTrip(msg);
  }

  /** Every double quote of `e` follows a backslash. */
  predicate QuotesEscaped(e: string) {
    forall k :: 0 <= k < |e| && e[k] == '"' ==> k > 0 && e[k - 1] == '\\'
  }

  lemma QuotesEscapedConcat(a: string, b: string)
    requires QuotesEscaped(a) && QuotesEscaped(b) && (b != [] ==> b[0] != '"')
    ensures QuotesEscaped(a + b)
  {
    forall k | 0 <= k < |a + b| && (a + b)[k] == '"' ensures k > 0 && (a + b)[k - 1] == '\\' {
      if k >= |a| {
        assert b[k - |a|] == '"';
        assert (a + b)[k - 1] == b[k - |a| - 1];
      }
    }
  }

  /** No double quote of the message can close the quoted `-m` argument early. */
  lemma {:induction false} EscapeFullQuotesEscaped(msg: string)
    ensures QuotesEscaped(EscapeFull(msg))
  {
    EscapeFullIsOnePass(msg);
    EscapeFullPassQuotes(msg);
  }

  lemma {:induction false} EscapeFullPassQuotes(msg: string)
    ensures QuotesEscaped(EscapeFullPass(msg))
  {
    if msg != [] {
      EscapeFullPassQuotes(msg[1..]);
      var rest := EscapeFullPass(msg[1..]);
      if rest != [] {
        EscapeFullPassHead(msg[1..]);
      }
      QuotesEscapedConcat(EscapeFullChar(msg[0]), rest);
    }
  }

  // ----- The simple variant -----

  /** `cs['comment'].replace('"', '\\"').replace("'", "'\\''")` */
  function EscapeSimple(msg: string): string {
    ReplaceChar(ReplaceChar(msg, '"', "\\\""), '\'', "'\\''")
  }

  function EscapeSimpleChar(c: char): string {
    if c == '"' then "\\\"" else if c == '\'' then "'\\''" else [c]
  }

  function EscapeSimplePass(msg: string): string {
    if msg == [] then [] else EscapeSimpleChar(msg[0]) + EscapeSimplePass(msg[1..])
  }

  lemma {:induction false} EscapeSimpleIsOnePass(msg: string)
    ensures EscapeSimple(msg) == EscapeSimplePass(msg)
  {
    if msg != [] {
      EscapeSimpleIsOnePass(msg[1..]);
      var head := if msg[0] == '"' then "\\\"" else [msg[0]];
      assert ReplaceChar(msg, '"', "\\\"") == head + ReplaceChar(msg[1..], '"', "\\\"");
      ReplaceCharAppend(head, ReplaceChar(msg[1..], '"', "\\\""), '\'', "'\\''");
      if msg[0] == '"' {
        ReplaceCharAbsent(head, '\'', "'\\''");
      } else {
        assert ReplaceChar(head, '\'', "'\\''") == EscapeSimpleChar(msg[0]);
      }
    }
  }

  lemma {:induction false} EscapeSimplePassLength(msg: string)
    ensures |EscapeSimplePass(msg)| == |msg| + CountChar(msg, '"') + 3 * CountChar(msg, '\'')
  {
    if msg != [] {
      EscapeSimplePassLength(msg[1..]);
    }
  }

  /** Every `"` gains one character and every `'` three. */
  lemma EscapeSimpleLength(msg: string)
    ensures |EscapeSimple(msg)| == |msg| + CountChar(msg, '"') + 3 * CountChar(msg, '\'')
  {
    EscapeSimpleIsOnePass(msg);
    EscapeSimplePassLength(msg);
  }

  /** Reads `\"` as `"` and `'\''` as `'`, every other character as itself. */
  function UnescapeSimple(s: string): string {
    if s == [] then []
    else if |s| >= 2 && s[0] == '\\' && s[1] == '"' then "\"" + UnescapeSimple(s[2..])
    else if |s| >= 4 && s[0] == '\'' && s[1] == '\\' && s[2] == '\'' && s[3] == '\'' then "'" + UnescapeSimple(s[4..])
    else [s[0]] + UnescapeSimple(s[1..])
  }

  lemma EscapeSimplePassHead(msg: string)
    requires EscapeSimplePass(msg) != []
    ensures EscapeSimplePass(msg)[0] != '"'
  {
  }

  lemma {:induction false} EscapeSimplePassRoundTrip(msg: string)
    ensures UnescapeSimple(EscapeSimplePass(msg)) == msg
  {
    if msg != [] {
      var rest := EscapeSimplePass(msg[1..]);
      EscapeSimplePassRoundTrip(msg[1..]);
      var e := EscapeSimpleChar(msg[0]) + rest;
      if msg[0] == '"' {
        assert e[0] == '\\' && e[1] == '"' && e[2..] == rest;
      } else if msg[0] == '\'' {
        assert e[0] == '\'' && e[1] == '\\' && e[2] == '\'' && e[3] == '\'' && e[4..] == rest;
      } else {
        if rest != [] {
          EscapeSimplePassHead(msg[1..]);
          assert e[1] == rest[0];
        }
        assert e[0] == msg[0] && e[1..] == rest;
      }
      assert msg == [msg[0]] + msg[1..];
    }
  }

  /** Escaping loses nothing: the message can be read back from its escaped form. */
  lemma EscapeSimpleRoundTrip(msg: string)
    ensures UnescapeSimple(EscapeSimple(msg)) == msg
  {
    EscapeSimpleIsOnePass(msg);
    EscapeSimplePassRoundTrip(msg);
  }

  /** No double quote of the message can close the quoted `-m` argument early. */
  lemma {:induction false} EscapeSimpleQuotesEscaped(msg: string)
    ensures QuotesEscaped(EscapeSimple(msg))
  {
    EscapeSimpleIsOnePass(msg);
    EscapeSimplePassQuotes(msg);
  }

  lemma {:induction false} EscapeSimplePassQuotes(msg: string)
    ensures QuotesEscaped(EscapeSimplePass(msg))
  {
    if msg != [] {
      EscapeSimplePassQuotes(msg[1..]);
      var rest := EscapeSimplePass(msg[1..]);
      if rest != [] {
        EscapeSimplePassHead(msg[1..]);
      }
      QuotesEscapedConcat(EscapeSimpleChar(msg[0]), rest);
    }
  }
}
