/** The parts of Go's `strings` package that rmapp relies on, as total functions over Dafny strings.
    Case folding (`strings.ToLower`) and `unicode.IsDigit` are modelled on ASCII characters only. */
module GoStrings {

  /** `unicode.ToLower` on one character, ASCII letters only. */
  function LowerChar(c: char): char
  {
    if 'A' <= c <= 'Z' then (c as int + 32) as char else c
  }

  /** `strings.ToLower`. */
  function Lower(s: string): (r: string)
    ensures |r| == |s|
    ensures forall i :: 0 <= i < |s| ==> r[i] == LowerChar(s[i])
  {
    seq(|s|, i requires 0 <= i < |s| => LowerChar(s[i]))
  }

  lemma LowerIdempotent(s: string)
    ensures Lower(Lower(s)) == Lower(s)
  {
  }

  /** Lower-casing leaves a string without upper-case ASCII letters unchanged. */
  lemma LowerOfLowerCase(s: string)
    requires forall i :: 0 <= i < |s| ==> !('A' <= s[i] <= 'Z')
    ensures Lower(s) == s
  {
  }

  /** `strings.HasPrefix`. */
  predicate HasPrefix(s: string, prefix: string)
  {
    |prefix| <= |s| && s[..|prefix|] == prefix
  }

  /** `strings.HasSuffix`. */
  predicate HasSuffix(s: string, suffix: string)
  {
    |suffix| <= |s| && s[|s| - |suffix|..] == suffix
  }

  /** `strings.TrimPrefix`. */
  function TrimPrefix(s: string, prefix: string): string
  {
    if HasPrefix(s, prefix) then s[|prefix|..] else s
  }

  /** `strings.TrimSuffix`. */
  function TrimSuffix(s: string, suffix: string): string
  {
    if HasSuffix(s, suffix) then s[..|s| - |suffix|] else s
  }

  /** `sub` occurs in `s` starting at index `i`. */
  predicate OccursAt(s: string, sub: string, i: int)
  {
    0 <= i && i + |sub| <= |s| && s[i..i + |sub|] == sub
  }

  /** `strings.Contains`: some suffix of `s` starts with `sub`; every string contains "". */
  predicate Contains(s: string, sub: string)
    decreases |s|
  {
    HasPrefix(s, sub) || (|s| > 0 && Contains(s[1..], sub))
  }

  lemma {:induction false} ContainsAt(s: string, sub: string, i: int)
    requires OccursAt(s, sub, i)
    ensures Contains(s, sub)
    decreases i
  {
    if i > 0 {
      assert s[1..][i - 1..i - 1 + |sub|] == s[i..i + |sub|];
      ContainsAt(s[1..], sub, i - 1);
    } else {
      assert s[..|sub|] == s[0..|sub|];
    }
  }

  lemma {:induction false} ContainsWitness(s: string, sub: string) returns (i: int)
    requires Contains(s, sub)
    ensures OccursAt(s, sub, i)
    decreases |s|
  {
    if HasPrefix(s, sub) {
      i := 0;
      assert s[0..|sub|] == s[..|sub|];
    } else {
      var j := ContainsWitness(s[1..], sub);
      i := j + 1;
      assert s[i..i + |sub|] == s[1..][j..j + |sub|];
    }
  }

  /** A string contains each of its suffixes. */
  lemma ContainsSuffix(s: string, t: string)
    ensures Contains(s + t, t)
  {
    assert (s + t)[|s|..|s| + |t|] == t;
    ContainsAt(s + t, t, |s|);
  }

  /** A string contains each of its prefixes. */
  lemma ContainsPrefix(s: string, t: string)
    ensures Contains(s + t, s)
  {
    assert (s + t)[..|s|] == s;
  }

  /** Containment is kept when text is added on either side. */
  lemma ContainsExtend(a: string, s: string, b: string, sub: string)
    requires Contains(s, sub)
    ensures Contains(a + s + b, sub)
  {
    var i := ContainsWitness(s, sub);
    assert (a + s + b)[|a| + i..|a| + i + |sub|] == s[i..i + |sub|];
    ContainsAt(a + s + b, sub, |a| + i);
  }

  /** A non-empty string can only occur where its first character does. */
  lemma ContainsFirstChar(s: string, sub: string)
    requires Contains(s, sub) && |sub| > 0
    ensures sub[0] in s && |sub| <= |s|
  {
    var i := ContainsWitness(s, sub);
    assert s[i] == s[i..i + |sub|][0];
  }

  /** `strings.Contains(s, string(c))` holds exactly when the character occurs in `s`. */
  lemma ContainsChar(s: string, c: char)
    ensures Contains(s, [c]) <==> c in s
  {
    if c in s {
      var i :| 0 <= i < |s| && s[i] == c;
      assert s[i..i + 1] == [c];
      ContainsAt(s, [c], i);
    }
    if Contains(s, [c]) {
      ContainsFirstChar(s, [c]);
    }
  }

  predicate IsDigit(c: char)
  {
    '0' <= c <= '9'
  }

  /** `strings.TrimRightFunc(s, unicode.IsDigit)`: the longest prefix of `s` that does not end in a digit. */
  function TrimRightDigits(s: string): (r: string)
    ensures |r| <= |s| && r == s[..|r|]
    ensures forall i :: |r| <= i < |s| ==> IsDigit(s[i])
    ensures r == "" || !IsDigit(r[|r| - 1])
    decreases |s|
  {
    if |s| > 0 && IsDigit(s[|s| - 1]) then TrimRightDigits(s[..|s| - 1]) else s
  }

  /** Stripping a non-empty run of digits from a string that does not end in a digit gives the string back. */
  lemma {:induction false} TrimRightDigitsOf(base: string, digits: string)
    requires base == "" || !IsDigit(base[|base| - 1])
    requires forall i :: 0 <= i < |digits| ==> IsDigit(digits[i])
    ensures TrimRightDigits(base + digits) == base
    decreases |digits|
  {
    if |digits| == 0 {
      assert base + digits == base;
    } else {
      var s := base + digits;
      assert s[..|s| - 1] == base + digits[..|digits| - 1];
      TrimRightDigitsOf(base, digits[..|digits| - 1]);
    }
  }

  /** `strings.Split(s, string(c))` for a one-character separator. */
  function SplitOn(s: string, c: char): (parts: seq<string>)
    ensures |parts| >= 1
    ensures forall p | p in parts :: c !in p
    decreases |s|
  {
    if |s| == 0 then [""]
    else
      var rest := SplitOn(s[1..], c);
      if s[0] == c then [""] + rest
      else [[s[0]] + rest[0]] + rest[1..]
  }

  /** `strings.Join`. */
  function Join(parts: seq<string>, sep: string): string
  {
    if |parts| == 0 then ""
    else if |parts| == 1 then parts[0]
    else parts[0] + sep + Join(parts[1..], sep)
  }

  /** Appending a part to a non-empty list appends the separator and the part to the join. */
  lemma {:induction false} JoinSnoc(parts: seq<string>, sep: string, x: string)
    requires |parts| >= 1
    ensures Join(parts + [x], sep) == Join(parts, sep) + sep + x
    decreases |parts|
  {
    var ps := parts + [x];
    if |parts| > 1 {
      assert ps[1..] == parts[1..] + [x];
      JoinSnoc(parts[1..], sep, x);
    } else {
      assert ps[1..] == [x];
    }
  }

  /** Every part occurs in the join. */
  lemma {:induction false} JoinContains(parts: seq<string>, sep: string, i: int)
    requires 0 <= i < |parts|
    ensures Contains(Join(parts, sep), parts[i])
    decreases |parts|
  {
    if |parts| == 1 {
      ContainsPrefix(parts[0], "");
      assert parts[0] + "" == parts[0];
    } else if i == 0 {
      ContainsPrefix(parts[0], sep + Join(parts[1..], sep));
      assert parts[0] + sep + Join(parts[1..], sep) == parts[0] + (sep + Join(parts[1..], sep));
    } else {
      JoinContains(parts[1..], sep, i - 1);
      ContainsExtend(parts[0] + sep, Join(parts[1..], sep), "", parts[i]);
      assert parts[0] + sep + Join(parts[1..], sep) + "" == Join(parts, sep);
    }
  }

  /** A character absent from every part and from the separator is absent from the join. */
  lemma {:induction false} JoinWithout(parts: seq<string>, sep: string, c: char)
    requires c !in sep
    requires forall p | p in parts :: c !in p
    ensures c !in Join(parts, sep)
    decreases |parts|
  {
    if |parts| > 1 {
      assert parts[0] in parts;
      assert forall p | p in parts[1..] :: p in parts;
      JoinWithout(parts[1..], sep, c);
    } else if |parts| == 1 {
      assert parts[0] in parts;
    }
  }

  /** Joining the pieces of a split with the separator gives back the original string. */
  lemma {:induction false} JoinSplitOn(s: string, c: char)
    ensures Join(SplitOn(s, c), [c]) == s
    decreases |s|
  {
    if |s| > 0 {
      var rest := SplitOn(s[1..], c);
      JoinSplitOn(s[1..], c);
      if s[0] == c {
        assert s == [c] + s[1..];
      } else if |rest| > 1 {
        assert Join(rest, [c]) == rest[0] + [c] + Join(rest[1..], [c]);
        assert s == [s[0]] + s[1..];
      } else {
        assert s == [s[0]] + s[1..];
      }
    }
  }

  /** A string without the separator splits into itself alone. */
  lemma {:induction false} SplitOnWithout(t: string, c: char)
    requires c !in t
    ensures SplitOn(t, c) == [t]
    decreases |t|
  {
    if |t| > 0 {
      SplitOnWithout(t[1..], c);
      assert t == [t[0]] + t[1..];
    }
  }

  /** The first separator closes the first piece. */
  lemma {:induction false} SplitOnFirst(t: string, c: char, u: string)
    requires c !in t
    ensures SplitOn(t + [c] + u, c) == [t] + SplitOn(u, c)
    decreases |t|
  {
    var s := t + [c] + u;
    if |t| == 0 {
      assert s[1..] == u;
    } else {
      assert s[1..] == t[1..] + [c] + u;
      SplitOnFirst(t[1..], c, u);
      assert [t[0]] + t[1..] == t;
    }
  }

  /** Splitting a join of separator-free pieces gives back the pieces. */
  lemma {:induction false} SplitOnJoin(parts: seq<string>, c: char)
    requires |parts| >= 1
    requires forall p | p in parts :: c !in p
    ensures SplitOn(Join(parts, [c]), c) == parts
    decreases |parts|
  {
    if |parts| == 1 {
      SplitOnWithout(parts[0], c);
    } else {
      SplitOnJoin(parts[1..], c);
      SplitOnFirst(parts[0], c, Join(parts[1..], [c]));
      assert [parts[0]] + parts[1..] == parts;
    }
  }

  /** `strings.Split` yields at least two pieces exactly when the separator occurs. */
  lemma SplitOnCount(s: string, c: char)
    ensures |SplitOn(s, c)| >= 2 <==> c in s
  {
    if c in s {
      JoinSplitOn(s, c);
    } else {
      SplitOnWithout(s, c);
    }
  }

  /** No character of `t` is in `seps`. */
  predicate NoneIn(t: string, seps: set<char>)
  {
    forall i :: 0 <= i < |t| ==> t[i] !in seps
  }

  lemma NoneInExcludes(t: string, seps: set<char>, c: char)
    requires NoneIn(t, seps) && c in seps
    ensures c !in t
  {
  }

  /** Length of the longest prefix of `s` free of separators. */
  function RunLength(s: string, seps: set<char>): (n: nat)
    ensures n <= |s|
    ensures NoneIn(s[..n], seps)
    ensures n < |s| ==> s[n] in seps
    decreases |s|
  {
    if |s| == 0 || s[0] in seps then 0 else 1 + RunLength(s[1..], seps)
  }

  /** `strings.FieldsFunc(s, func(r) { r in seps })`: the maximal separator-free runs of `s`. */
  function Fields(s: string, seps: set<char>): (fields: seq<string>)
    ensures forall f | f in fields :: f != "" && NoneIn(f, seps)
    decreases |s|
  {
    if |s| == 0 then []
    else if s[0] in seps then Fields(s[1..], seps)
    else
      var n := RunLength(s, seps);
      [s[..n]] + Fields(s[n..], seps)
  }

  /** The run that starts a string ends at the first separator. */
  lemma {:induction false} RunLengthAt(t: string, u: string, seps: set<char>)
    requires NoneIn(t, seps)
    requires u == [] || u[0] in seps
    ensures RunLength(t + u, seps) == |t|
    decreases |t|
  {
    if |t| == 0 {
      assert t + u == u;
    } else {
      assert (t + u)[0] == t[0];
      assert (t + u)[1..] == t[1..] + u;
      assert NoneIn(t[1..], seps);
      RunLengthAt(t[1..], u, seps);
    }
  }

  /** A non-empty separator-free string is one field. */
  lemma FieldsSingle(t: string, seps: set<char>)
    requires t != "" && NoneIn(t, seps)
    ensures Fields(t, seps) == [t]
  {
    RunLengthAt(t, "", seps);
    assert t + "" == t;
  }

  /** A separator after a non-empty separator-free prefix closes the first field. */
  lemma FieldsCons(t: string, c: char, u: string, seps: set<char>)
    requires t != "" && NoneIn(t, seps) && c in seps
    ensures Fields(t + [c] + u, seps) == [t] + Fields(u, seps)
  {
    var s := t + [c] + u;
    RunLengthAt(t, [c] + u, seps);
    assert s == t + ([c] + u);
    assert s[..|t|] == t;
    assert s[|t|..] == [c] + u;
    assert ([c] + u)[1..] == u;
  }

  /** Tokenizing a join of non-empty separator-free words gives back the words. */
  lemma {:induction false} FieldsJoin(words: seq<string>, c: char, seps: set<char>)
    requires c in seps
    requires forall w | w in words :: w != "" && NoneIn(w, seps)
    ensures Fields(Join(words, [c]), seps) == words
    decreases |words|
  {
    if |words| == 1 {
      assert words[0] in words;
      FieldsSingle(words[0], seps);
    } else if |words| > 1 {
      assert forall w | w in words[1..] :: w in words;
      FieldsJoin(words[1..], c, seps);
      assert words[0] in words;
      FieldsCons(words[0], c, Join(words[1..], [c]), seps);
      assert [words[0]] + words[1..] == words;
    }
  }
}
