/** Strings as the services handle them. White space is that of ECMAScript. Upper-casing is exact as far
    as ASCII letters can come of it, lower-casing is that of ASCII text. */
module Text {
  datatype Option<+T> = None | Some(value: T)

  function UpperChar(c: char): char {
    if 'a' <= c <= 'z' then ('A' as int + (c as int - 'a' as int)) as char else c
  }

  function LowerChar(c: char): char {
    if 'A' <= c <= 'Z' then ('a' as int + (c as int - 'A' as int)) as char else c
  }

  /** ASCII capitals and small letters are 32 code points apart, and no other character has a partner. */
  lemma {:induction false} CaseExact(c: char)
    ensures UpperChar(c) as int == c as int - (if 97 <= c as int <= 122 then 32 else 0)
    ensures LowerChar(c) as int == c as int + (if 65 <= c as int <= 90 then 32 else 0)
  {
  }

  /** What `\s` matches and `trim` removes. */
  predicate IsSpace(c: char) {
    c == ' ' || '\t' <= c <= '\r' || c == '\U{00A0}' || c == '\U{1680}' || '\U{2000}' <= c <= '\U{200A}'
    || c == '\U{2028}' || c == '\U{2029}' || c == '\U{202F}' || c == '\U{205F}' || c == '\U{3000}' || c == '\U{FEFF}'
  }

  predicate IsDigit(c: char) {
    '0' <= c <= '9'
  }

  /** `toUpperCase` of one character. Some characters outside ASCII have ASCII capitals, several of them
      more than one (SpecialCasing of the Unicode Character Database); the capitals of all others hold
      no ASCII letter, so those stand for themselves. */
  function UpperText(c: char): string {
    match c
    case '\U{00DF}' => "SS"
    case '\U{0131}' => "I"
    case '\U{0149}' => "\U{02BC}N"
    case '\U{017F}' => "S"
    case '\U{01F0}' => "J\U{030C}"
    case '\U{1E96}' => "H\U{0331}"
    case '\U{1E97}' => "T\U{0308}"
    case '\U{1E98}' => "W\U{030A}"
    case '\U{1E99}' => "Y\U{030A}"
    case '\U{1E9A}' => "A\U{02BE}"
    case '\U{FB00}' => "FF"
    case '\U{FB01}' => "FI"
    case '\U{FB02}' => "FL"
    case '\U{FB03}' => "FFI"
    case '\U{FB04}' => "FFL"
    case '\U{FB05}' => "ST"
    case '\U{FB06}' => "ST"
    case _ => [UpperChar(c)]
  }

  function UpperCase(s: string): string {
    if s == [] then [] else UpperText(s[0]) + UpperCase(s[1..])
  }

  lemma {:induction false} UpperCaseConcat(s: string, t: string)
    ensures UpperCase(s + t) == UpperCase(s) + UpperCase(t)
  {
    hide UpperText;
    if s == [] {
      assert s + t == t;
    } else {
      assert (s + t)[1..] == s[1..] + t;
      UpperCaseConcat(s[1..], t);
    }
  }

  function Upper(s: string): (r: string)
    ensures |r| == |s|
  {
    seq(|s|, i requires 0 <= i < |s| => UpperChar(s[i]))
  }

  function Lower(s: string): (r: string)
    ensures |r| == |s|
  {
    seq(|s|, i requires 0 <= i < |s| => LowerChar(s[i]))
  }

  /** The white space of ECMAScript by code point: tab to carriage return, space, the Unicode space
      separators, line and paragraph separator, and the byte order mark. */
  lemma {:induction false} SpaceExact(c: char)
    ensures var n := c as int;
            IsSpace(c) <==>
              n in {9, 10, 11, 12, 13, 32, 0xA0, 0x1680, 0x2028, 0x2029, 0x202F, 0x205F, 0x3000, 0xFEFF}
              || 0x2000 <= n <= 0x200A
  {
  }

  function TrimStart(s: string): (r: string)
    ensures r == [] || !IsSpace(r[0])
  {
    if s != [] && IsSpace(s[0]) then TrimStart(s[1..]) else s
  }

  function TrimEnd(s: string): (r: string)
    ensures r == [] || !IsSpace(r[|r| - 1])
    ensures r <= s
  {
    if s != [] && IsSpace(s[|s| - 1]) then TrimEnd(s[..|s| - 1]) else s
  }

  function Trim(s: string): string {
    TrimEnd(TrimStart(s))
  }

  /** `s.split(sep)` for a one-character separator. */
  function Split(s: string, sep: char): (parts: seq<string>)
    ensures |parts| > 0
  {
    if s == [] then [[]]
    else
      var rest := Split(s[1..], sep);
      if s[0] == sep then [[]] + rest else [[s[0]] + rest[0]] + rest[1..]
  }

  /** `parts.join(sep)` */
  function Join(parts: seq<string>, sep: char): string {
    if parts == [] then []
    else if |parts| == 1 then parts[0]
    else parts[0] + [sep] + Join(parts[1..], sep)
  }

  predicate AllSpaces(s: string) {
    forall c :: c in s ==> IsSpace(c)
  }

  /** No white space at either end. */
  predicate EdgesClean(s: string) {
    s == [] || (!IsSpace(s[0]) && !IsSpace(s[|s| - 1]))
  }

  lemma {:induction false} TrimStartPadded(pre: string, s: string)
    requires AllSpaces(pre) && (s == [] || !IsSpace(s[0]))
    ensures TrimStart(pre + s) == s
  {
    if pre == [] {
      assert pre + s == s;
    } else {
      assert pre[0] in pre;
      assert forall c :: c in pre[1..] ==> c in pre;
      assert (pre + s)[1..] == pre[1..] + s;
      TrimStartPadded(pre[1..], s);
    }
  }

  lemma {:induction false} TrimEndPadded(s: string, post: string)
    requires AllSpaces(post) && (s == [] || !IsSpace(s[|s| - 1]))
    ensures TrimEnd(s + post) == s
    decreases |post|
  {
    if post == [] {
      assert s + post == s;
    } else {
      var p := post[..|post| - 1];
      assert post[|post| - 1] in post;
      assert forall c :: c in p ==> c in post;
      assert (s + post)[..|s + post| - 1] == s + p;
      TrimEndPadded(s, p);
    }
  }

  /** Trimming removes exactly the padding around a string with clean edges. */
  lemma {:induction false} TrimPadded(pre: string, s: string, post: string)
    requires AllSpaces(pre) && AllSpaces(post) && EdgesClean(s)
    ensures Trim(pre + s + post) == s
  {
    if s == [] {
      assert pre + s + post == (pre + post) + [];
      TrimStartPadded(pre + post, []);
      TrimEndPadded([], []);
    } else {
      assert pre + s + post == pre + (s + post);
      TrimStartPadded(pre, s + post);
      TrimEndPadded(s, post);
    }
  }

  lemma {:induction false} NoSpaces()
    ensures AllSpaces([])
  {
  }

  lemma {:induction false} OneSpace(c: char)
    requires IsSpace(c)
    ensures AllSpaces([c])
  {
  }

  lemma {:induction false} AllSpacesConcat(s: string, t: string)
    requires AllSpaces(s) && AllSpaces(t)
    ensures AllSpaces(s + t)
  {
    hide IsSpace;
  }

  lemma {:induction false} TrimStartParts(s: string) returns (pre: string)
    ensures AllSpaces(pre) && s == pre + TrimStart(s)
  {
    hide IsSpace, AllSpaces;
    if s == [] || !IsSpace(s[0]) {
      pre := [];
      assert AllSpaces([]) by { NoSpaces(); }
    } else {
      assert TrimStart(s) == TrimStart(s[1..]);
      hide TrimStart;
      var rest := TrimStartParts(s[1..]);
      OneSpace(s[0]);
      AllSpacesConcat([s[0]], rest);
      pre := [s[0]] + rest;
      assert s == [s[0]] + s[1..];
    }
  }

  lemma {:induction false} TrimEndParts(s: string) returns (post: string)
    ensures AllSpaces(post) && s == TrimEnd(s) + post
  {
    hide IsSpace, AllSpaces;
    if s == [] || !IsSpace(s[|s| - 1]) {
      post := [];
      assert AllSpaces([]) by { NoSpaces(); }
    } else {
      assert TrimEnd(s) == TrimEnd(s[..|s| - 1]);
      hide TrimEnd;
      var rest := TrimEndParts(s[..|s| - 1]);
      OneSpace(s[|s| - 1]);
      AllSpacesConcat(rest, [s[|s| - 1]]);
      post := rest + [s[|s| - 1]];
      assert s == s[..|s| - 1] + [s[|s| - 1]];
    }
  }

  /** Every string is its trimmed self with white space around it. */
  lemma {:induction false} TrimParts(s: string) returns (pre: string, post: string)
    ensures AllSpaces(pre) && AllSpaces(post) && s == pre + Trim(s) + post
  {
    pre := TrimStartParts(s);
    post := TrimEndParts(TrimStart(s));
  }

  lemma {:induction false} SplitFirst(s: string, sep: char)
    ensures sep !in Split(s, sep)[0]
    ensures if |Split(s, sep)| == 1 then s == Split(s, sep)[0]
            else Split(s, sep)[0] + [sep] <= s
                 && Split(s, sep)[1..] == Split(s[|Split(s, sep)[0]| + 1..], sep)
  {
    if s == [] {
    } else {
      SplitFirst(s[1..], sep);
      assert s == [s[0]] + s[1..];
      if s[0] != sep {
        var n := |Split(s[1..], sep)[0]|;
        assert |Split(s, sep)[0]| == n + 1;
        if |Split(s, sep)| > 1 {
          assert s[n + 2..] == s[1..][n + 1..];
        }
      }
    }
  }

  lemma {:induction false} SplitPrefix(p: string, sep: char, s: string)
    requires sep !in p
    ensures Split(p + [sep] + s, sep) == [p] + Split(s, sep)
  {
    var t := p + [sep] + s;
    if p == [] {
      assert t[1..] == s;
    } else {
      assert t[0] == p[0] && t[1..] == p[1..] + [sep] + s;
      SplitPrefix(p[1..], sep, s);
      assert [p[0]] + p[1..] == p;
    }
  }

  lemma {:induction false} SplitNone(p: string, sep: char)
    requires sep !in p
    ensures Split(p, sep) == [p]
  {
    if p == [] {
    } else {
      SplitNone(p[1..], sep);
      assert [p[0]] + p[1..] == p;
    }
  }

  /** Splitting undoes joining when no part contains the separator. */
  lemma {:induction false} SplitJoin(parts: seq<string>, sep: char)
    requires parts != [] && forall p :: p in parts ==> sep !in p
    ensures Split(Join(parts, sep), sep) == parts
  {
    assert parts[0] in parts;
    if |parts| == 1 {
      SplitNone(parts[0], sep);
    } else {
      assert forall p :: p in parts[1..] ==> p in parts;
      SplitJoin(parts[1..], sep);
      SplitPrefix(parts[0], sep, Join(parts[1..], sep));
    }
  }
}
