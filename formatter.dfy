/** `StripColor` from finder/formater.go: the regular expression `\x1b\[[0-9;]*m` replaced by "" throughout,
    together with the colouring that the peek report's lines receive before being stripped. */
module Formatter {

  const ESC: char := '\U{1B}'

  /** A character the regular expression's class `[0-9;]` accepts. */
  predicate IsCodeChar(c: char)
  {
    '0' <= c <= '9' || c == ';'
  }

  /** Length of the longest prefix of `s` made of code characters: the greedy `[0-9;]*`. */
  function CodeRun(s: string): (k: nat)
    ensures k <= |s|
    ensures forall i :: 0 <= i < k ==> IsCodeChar(s[i])
    ensures k < |s| ==> !IsCodeChar(s[k])
    decreases |s|
  {
    if |s| > 0 && IsCodeChar(s[0]) then 1 + CodeRun(s[1..]) else 0
  }

  /** A match of the expression starts at the front of `s`; the greedy run is the only one that can reach
      the `m`, because `m` is not a code character. */
  predicate SgrAtFront(s: string)
  {
    |s| >= 2 && s[0] == ESC && s[1] == '[' && 2 + CodeRun(s[2..]) < |s| && s[2 + CodeRun(s[2..])] == 'm'
  }

  /** `regexp.ReplaceAllString(s, "")`: scanning left to right, each leftmost match is dropped and the scan
      resumes after it; every other character is kept in order. */
  function StripColor(s: string): (r: string)
    ensures |r| <= |s|
    decreases |s|
  {
    if |s| == 0 then ""
    else if SgrAtFront(s) then StripColor(s[3 + CodeRun(s[2..])..])
    else [s[0]] + StripColor(s[1..])
  }

  /** A select-graphic-rendition sequence with the given parameters. */
  function Sgr(params: string): string
  {
    [ESC, '['] + params + ['m']
  }

  predicate IsCode(params: string)
  {
    forall i :: 0 <= i < |params| ==> IsCodeChar(params[i])
  }

  /** `pfmt.ApplyColor(s, color)`, taken to wrap `s` in a 256-colour foreground sequence and a reset. */
  function ApplyColor(s: string, color: string): string
  {
    Sgr("38;5;" + color) + s + Sgr("0")
  }

  /** Text without an escape character passes through unchanged. */
  lemma {:induction false} StripColorPlain(s: string)
    requires ESC !in s
    ensures StripColor(s) == s
    decreases |s|
  {
    if |s| > 0 {
      assert s[0] != ESC;
      assert ESC !in s[1..];
      StripColorPlain(s[1..]);
      assert [s[0]] + s[1..] == s;
    }
  }

  /** An escape-free prefix is kept verbatim in front of the stripped rest. */
  lemma {:induction false} StripColorPlainPrefix(a: string, x: string)
    requires ESC !in a
    ensures StripColor(a + x) == a + StripColor(x)
    decreases |a|
  {
    if |a| > 0 {
      assert (a + x)[0] == a[0] && a[0] != ESC;
      assert (a + x)[1..] == a[1..] + x;
      assert ESC !in a[1..];
      StripColorPlainPrefix(a[1..], x);
      assert [a[0]] + a[1..] == a;
    } else {
      assert a + x == x;
    }
  }

  /** The greedy code run stops at the `m` that closes a sequence. */
  lemma {:induction false} CodeRunOfParams(params: string, x: string)
    requires IsCode(params)
    ensures CodeRun(params + ['m'] + x) == |params|
    decreases |params|
  {
    if |params| > 0 {
      assert (params + ['m'] + x)[1..] == params[1..] + ['m'] + x;
      CodeRunOfParams(params[1..], x);
    }
  }

  /** A complete sequence at the front is removed, and stripping resumes right after it. */
  lemma StripColorSgrPrefix(params: string, x: string)
    requires IsCode(params)
    ensures StripColor(Sgr(params) + x) == StripColor(x)
  {
    var s := Sgr(params) + x;
    assert s[2..] == params + ['m'] + x;
    CodeRunOfParams(params, x);
    assert s[2 + |params|] == 'm';
    assert s[3 + |params|..] == x;
  }

  /** The 256-colour code `38;5;<color>` is made of code characters when the colour is. */
  lemma ForegroundCode(color: string)
    requires IsCode(color)
    ensures IsCode("38;5;" + color)
  {
    var code := "38;5;" + color;
    forall i | 0 <= i < |code|
      ensures IsCodeChar(code[i])
    {
      if i >= 5 {
        assert code[i] == color[i - 5];
      }
    }
  }

  /** Stripping escape-free text, the reset sequence and more text gives the text followed by the stripped rest. */
  lemma StripReset(s: string, x: string)
    requires ESC !in s
    ensures StripColor(s + Sgr("0") + x) == s + StripColor(x)
  {
    assert IsCode("0");
    StripColorPlainPrefix(s, Sgr("0") + x);
    assert s + Sgr("0") + x == s + (Sgr("0") + x);
    StripColorSgrPrefix("0", x);
  }

  /** Stripping a coloured escape-free string followed by more text gives the string back, followed by
      the stripped rest. */
  lemma StripApplyColorIn(s: string, color: string, x: string)
    requires ESC !in s && IsCode(color)
    ensures StripColor(ApplyColor(s, color) + x) == s + StripColor(x)
  {
    var code := "38;5;" + color;
    ForegroundCode(color);
    var rest := s + Sgr("0") + x;
    StripColorSgrPrefix(code, rest);
    assert ApplyColor(s, color) + x == Sgr(code) + rest;
    StripReset(s, x);
  }

  /** Colouring an escape-free string and stripping it gives the string back. */
  lemma StripApplyColor(s: string, color: string)
    requires ESC !in s && IsCode(color)
    ensures StripColor(ApplyColor(s, color)) == s
  {
    StripApplyColorIn(s, color, "");
    assert ApplyColor(s, color) + "" == ApplyColor(s, color);
  }

  /** A line of plain text with two coloured fields, as rmapp prints its matches, strips to its plain text. */
  lemma StripTwoColoured(lead: string, a: string, ca: string, mid: string, b: string, cb: string)
    requires ESC !in lead && ESC !in a && ESC !in mid && ESC !in b && IsCode(ca) && IsCode(cb)
    ensures StripColor(lead + ApplyColor(a, ca) + mid + ApplyColor(b, cb)) == lead + a + mid + b
  {
    var first, second := ApplyColor(a, ca), ApplyColor(b, cb);
    StripApplyColor(b, cb);
    StripApplyColorIn(a, ca, mid + second);
    StripAroundPlain(lead, first, a, mid, second, b);
  }

  /** A line of plain text around two parts strips to the text around the parts' stripped forms, when the
      first part strips the same whatever follows it. */
  lemma StripAroundPlain(lead: string, first: string, a: string, mid: string, second: string, b: string)
    requires ESC !in lead && ESC !in mid
    requires StripColor(second) == b && StripColor(first + (mid + second)) == a + StripColor(mid + second)
    ensures StripColor(lead + first + mid + second) == lead + a + mid + b
  {
    var tail := mid + second;
    var coloured := first + tail;
    var line := lead + coloured;
    assert lead + first + mid + second == line by {
      assert lead + first + mid + second == lead + (first + (mid + second));
    }
    assert StripColor(line) == lead + (a + (mid + b)) by {
      StripColorPlainPrefix(mid, second);
      StripColorPlainPrefix(lead, coloured);
    }
    assert lead + (a + (mid + b)) == lead + a + mid + b;
  }

  /** An escape that no complete code follows is kept, with the `[` and the code characters after it, and
      stripping goes on after them: `ESC [ 1 x` stays as it is. */
  lemma {:induction false} StripColorKeepsIncomplete(params: string, t: string)
    requires IsCode(params)
    requires t == "" || (t[0] != 'm' && !IsCodeChar(t[0]))
    ensures StripColor([ESC, '['] + params + t) == [ESC, '['] + params + StripColor(t)
  {
    var s := [ESC, '['] + params + t;
    var lead := ['['] + params;
    assert s[1..] == lead + t;
    NoCodeAtFront(params, t);
    StripColorKept(s);
    assert ESC !in lead by {
      assert forall i :: 0 <= i < |params| ==> IsCodeChar(params[i]);
    }
    StripColorPlainPrefix(lead, t);
    assert [ESC] + (lead + StripColor(t)) == [ESC, '['] + params + StripColor(t);
  }

  /** Without a code at the front, the first character is kept. */
  lemma StripColorKept(s: string)
    requires |s| > 0 && !SgrAtFront(s)
    ensures StripColor(s) == [s[0]] + StripColor(s[1..])
  {
  }

  /** No code starts at an escape whose code characters are followed by neither `m` nor anything. */
  lemma NoCodeAtFront(params: string, t: string)
    requires IsCode(params)
    requires t == "" || (t[0] != 'm' && !IsCodeChar(t[0]))
    ensures !SgrAtFront([ESC, '['] + params + t)
  {
    var s := [ESC, '['] + params + t;
    assert s[2..] == params + t;
    CodeRunOfCode(params, t);
  }

  /** The greedy run over code characters followed by a non-code character is exactly those characters. */
  lemma {:induction false} CodeRunOfCode(params: string, t: string)
    requires IsCode(params) && (t == "" || !IsCodeChar(t[0]))
    ensures CodeRun(params + t) == |params|
    decreases |params|
  {
    if |params| > 0 {
      assert (params + t)[1..] == params[1..] + t;
      CodeRunOfCode(params[1..], t);
    } else {
      assert params + t == t;
    }
  }

  /** Stripping is not idempotent: removing an inner sequence can join the characters around it into a new one. */
  lemma StripColorNotIdempotent()
    ensures var s := [ESC, ESC, '[', 'm', '[', 'm'];
            StripColor(s) == [ESC, '[', 'm'] && StripColor(StripColor(s)) == ""
  {
    var s := [ESC, ESC, '[', 'm', '[', 'm'];
    assert !SgrAtFront(s);
    assert s[1..] == [ESC, '[', 'm', '[', 'm'];
    assert SgrAtFront(s[1..]) && CodeRun(s[1..][2..]) == 0;
    assert s[1..][3..] == ['[', 'm'];
    StripColorPlain(['[', 'm']);
    assert StripColor(s) == [ESC] + ['[', 'm'];
    var t := [ESC, '[', 'm'];
    assert SgrAtFront(t) && CodeRun(t[2..]) == 0;
    assert t[3..] == "";
  }
}
