/** Strings, bytes and numerals as the Rust standard library treats them:
    UTF-8 encoding (`str::as_bytes`, `str::len`), Unicode white space
    (`char::is_whitespace`, `str::trim`, `str::split_whitespace`),
    splitting on a character (`str::split`), substring search (`str::contains`),
    and radix digits (`char::to_digit`, integer formatting). */
module Text {

  datatype Option<+T> = None | Some(value: T)

  datatype Result<+T, +E> = Ok(value: T) | Err(error: E)

  /** A Rust `u8`. */
  newtype byte = x: int | 0 <= x < 256

  // ---------------------------------------------------------------------------
  // UTF-8

  /** The UTF-8 encoding of one Unicode scalar value. */
  function CharUtf8(c: char): (r: seq<byte>)
    ensures 1 <= |r| <= 4
    ensures |r| == 1 <==> (c as int) < 0x80
    ensures (c as int) < 0x80 ==> r[0] as int == c as int
    ensures (c as int) >= 0x80 ==> forall i :: 0 <= i < |r| ==> r[i] >= 0x80
  {
    var n := c as int;
    if n < 0x80 then [n as byte]
    else if n < 0x800 then [(0xC0 + n / 64) as byte, (0x80 + n % 64) as byte]
    else if n < 0x10000 then
      [(0xE0 + n / 4096) as byte, (0x80 + (n / 64) % 64) as byte, (0x80 + n % 64) as byte]
    else
      [(0xF0 + n / 262144) as byte, (0x80 + (n / 4096) % 64) as byte,
       (0x80 + (n / 64) % 64) as byte, (0x80 + n % 64) as byte]
  }

  /** The bytes of a Rust `String` (`as_bytes`, `into_bytes`); `len()` is their count. */
  function Utf8(s: string): seq<byte>
    decreases |s|
  {
    if s == [] then [] else CharUtf8(s[0]) + Utf8(s[1..])
  }

  predicate IsAscii(s: string) {
    forall i :: 0 <= i < |s| ==> (s[i] as int) < 0x80
  }

  /** Encoding a concatenation encodes the parts one after the other. */
  lemma {:induction false} Utf8Append(a: string, b: string)
    ensures Utf8(a + b) == Utf8(a) + Utf8(b)
    decreases |a|
  {
    if a == [] {
      assert a + b == b;
    } else {
      assert (a + b)[0] == a[0];
      assert (a + b)[1..] == a[1..] + b;
      Utf8Append(a[1..], b);
    }
  }

  /** An ASCII string is encoded one byte per character, each byte its code. */
  lemma {:induction false} AsciiUtf8(s: string)
    requires IsAscii(s)
    ensures |Utf8(s)| == |s|
    ensures forall i :: 0 <= i < |s| ==> Utf8(s)[i] as int == s[i] as int
    decreases |s|
  {
    if s != [] {
      assert IsAscii(s[1..]) by {
        forall i | 0 <= i < |s[1..]| ensures (s[1..][i] as int) < 0x80 {
          assert s[1..][i] == s[i + 1];
        }
      }
      AsciiUtf8(s[1..]);
    }
  }

  /** An ASCII string is encoded as its own code points. */
  lemma AsciiBytes(s: string, b: seq<byte>)
    requires IsAscii(s) && |b| == |s|
    requires forall i :: 0 <= i < |s| ==> b[i] as int == s[i] as int
    ensures Utf8(s) == b
  {
    AsciiUtf8(s);
  }

  /** The encoding is never shorter than the string, and has exactly its
      length only for ASCII text. */
  lemma {:induction false} Utf8Length(s: string)
    ensures |Utf8(s)| >= |s|
    ensures |Utf8(s)| == |s| <==> IsAscii(s)
    decreases |s|
  {
    if s != [] {
      Utf8Length(s[1..]);
      if IsAscii(s[1..]) && (s[0] as int) < 0x80 {
        forall i | 0 <= i < |s| ensures (s[i] as int) < 0x80 {
          if i > 0 { assert s[i] == s[1..][i - 1]; }
        }
      }
      if IsAscii(s) {
        assert (s[0] as int) < 0x80;
        forall i | 0 <= i < |s[1..]| ensures (s[1..][i] as int) < 0x80 {
          assert s[1..][i] == s[i + 1];
        }
      }
    }
  }

  // ---------------------------------------------------------------------------
  // Prefixes and substrings

  predicate StartsWith(s: string, prefix: string) {
    |prefix| <= |s| && s[..|prefix|] == prefix
  }

  /** `str::contains` with a string pattern: `sub` occurs somewhere in `s`. */
  predicate Contains(s: string, sub: string)
    decreases |s|
  {
    StartsWith(s, sub) || (|s| > 0 && Contains(s[1..], sub))
  }

  /** `sub` occurs in `s` starting at position `i`. */
  predicate OccursAt(s: string, sub: string, i: int) {
    0 <= i <= |s| - |sub| && s[i..i + |sub|] == sub
  }

  /** Contains means an occurrence at some position. */
  lemma {:induction false} ContainsAt(s: string, sub: string)
    ensures Contains(s, sub) <==> exists i :: OccursAt(s, sub, i)
    decreases |s|
  {
    if Contains(s, sub) {
      if !StartsWith(s, sub) {
        ContainsAt(s[1..], sub);
        var i :| OccursAt(s[1..], sub, i);
        assert s[i + 1..i + 1 + |sub|] == s[1..][i..i + |sub|];
        assert OccursAt(s, sub, i + 1);
      } else {
        assert OccursAt(s, sub, 0);
      }
    }
    if exists i :: OccursAt(s, sub, i) {
      var i :| OccursAt(s, sub, i);
      if i > 0 {
        assert s[1..][i - 1..i - 1 + |sub|] == s[i..i + |sub|];
        assert OccursAt(s[1..], sub, i - 1);
        ContainsAt(s[1..], sub);
      } else {
        assert StartsWith(s, sub);
      }
    }
  }

  /** Text that only grows keeps every occurrence it already had. */
  lemma ContainsExtend(s: string, t: string, sub: string)
    requires Contains(s, sub)
    ensures Contains(s + t, sub)
  {
    ContainsAt(s, sub);
    ContainsAt(s + t, sub);
    var i :| OccursAt(s, sub, i);
    assert (s + t)[i..i + |sub|] == s[i..i + |sub|];
    assert OccursAt(s + t, sub, i);
  }

  // ---------------------------------------------------------------------------
  // Splitting on a character and joining

  /** Position of the first `c` in `s`, or `|s|` when there is none. */
  function IndexOf(s: string, c: char): (i: nat)
    ensures i <= |s|
    ensures i < |s| ==> s[i] == c
    ensures forall j :: 0 <= j < i ==> s[j] != c
    decreases |s|
  {
    if s == [] then 0 else if s[0] == c then 0 else 1 + IndexOf(s[1..], c)
  }

  /** `s.split(sep)` collected into a vector: always at least one field, and
      no field contains the separator. */
  function SplitOn(s: string, sep: char): (r: seq<string>)
    ensures |r| >= 1
    ensures forall k :: 0 <= k < |r| ==> sep !in r[k]
    decreases |s|
  {
    var i := IndexOf(s, sep);
    if i == |s| then [s] else [s[..i]] + SplitOn(s[i + 1..], sep)
  }

  /** Fields separated by `sep` (`[a, b].join(":")`). */
  function Join(parts: seq<string>, sep: char): string
    decreases |parts|
  {
    if |parts| == 0 then ""
    else if |parts| == 1 then parts[0]
    else parts[0] + [sep] + Join(parts[1..], sep)
  }

  /** Field `k` of a split, or `default` when there are not that many
      (`args.get(k).unwrap_or(default)`). */
  function Field(fields: seq<string>, k: nat, default: string): string {
    if k < |fields| then fields[k] else default
  }

  /** Joining the fields of a split gives back the string. */
  lemma {:induction false} JoinSplitOn(s: string, sep: char)
    ensures Join(SplitOn(s, sep), sep) == s
    decreases |s|
  {
    var i := IndexOf(s, sep);
    if i < |s| {
      var rest := s[i + 1..];
      JoinSplitOn(rest, sep);
      SplitOnStep(s, sep);
      JoinCons(s[..i], SplitOn(rest, sep), sep);
      assert s == s[..i] + [sep] + rest;
    }
  }

  /** One step of the split: the field before the first separator, then the
      split of what follows it. */
  lemma SplitOnStep(s: string, sep: char)
    requires IndexOf(s, sep) < |s|
    ensures SplitOn(s, sep) == [s[..IndexOf(s, sep)]] + SplitOn(s[IndexOf(s, sep) + 1..], sep)
  {
  }

  /** Joining a field in front of at least one more. */
  lemma JoinCons(p: string, parts: seq<string>, sep: char)
    requires |parts| >= 1
    ensures Join([p] + parts, sep) == p + [sep] + Join(parts, sep)
  {
    assert ([p] + parts)[1..] == parts;
  }

  /** Splitting a join of separator-free fields gives back the fields. */
  lemma {:induction false} SplitOnJoin(parts: seq<string>, sep: char)
    requires |parts| >= 1
    requires forall k :: 0 <= k < |parts| ==> sep !in parts[k]
    ensures SplitOn(Join(parts, sep), sep) == parts
    decreases |parts|
  {
    var p := parts[0];
    if |parts| == 1 {
      assert IndexOf(p, sep) == |p|;
    } else {
      var rest := Join(parts[1..], sep);
      var s := p + [sep] + rest;
      assert s[|p|] == sep;
      assert forall j :: 0 <= j < |p| ==> s[j] == p[j];
      assert IndexOf(s, sep) == |p|;
      assert s[..|p|] == p;
      assert s[|p| + 1..] == rest;
      SplitOnJoin(parts[1..], sep);
    }
  }

  // ---------------------------------------------------------------------------
  // White space, trimming, split_whitespace

  /** Rust's `char::is_whitespace`: the Unicode White_Space property. */
  predicate IsWhitespace(c: char) {
    var n := c as int;
    (9 <= n <= 13) || n == 0x20 || n == 0x85 || n == 0xA0 || n == 0x1680
    || (0x2000 <= n <= 0x200A) || n == 0x2028 || n == 0x2029 || n == 0x202F
    || n == 0x205F || n == 0x3000
  }

  predicate NoWhitespace(s: string) {
    forall i :: 0 <= i < |s| ==> !IsWhitespace(s[i])
  }

  /** `str::trim_start`: drops leading white space and nothing else. */
  function TrimStart(s: string): (r: string)
    ensures r == [] || !IsWhitespace(r[0])
    ensures |r| <= |s| && r == s[|s| - |r|..]
    ensures forall i :: 0 <= i < |s| - |r| ==> IsWhitespace(s[i])
    decreases |s|
  {
    if s != [] && IsWhitespace(s[0]) then TrimStart(s[1..]) else s
  }

  /** `str::trim_end`: drops trailing white space and nothing else. */
  function TrimEnd(s: string): (r: string)
    ensures r == [] || !IsWhitespace(r[|r| - 1])
    ensures |r| <= |s| && r == s[..|r|]
    ensures forall i :: |r| <= i < |s| ==> IsWhitespace(s[i])
    decreases |s|
  {
    if s != [] && IsWhitespace(s[|s| - 1]) then TrimEnd(s[..|s| - 1]) else s
  }

  /** `str::trim`. */
  function Trim(s: string): string {
    TrimEnd(TrimStart(s))
  }

  /** Text with no white space at either end is its own trim. */
  lemma TrimUnchanged(s: string)
    requires s == [] || (!IsWhitespace(s[0]) && !IsWhitespace(s[|s| - 1]))
    ensures Trim(s) == s
  {
  }

  /** Trimming twice trims no further. */
  lemma TrimIdempotent(s: string)
    ensures Trim(Trim(s)) == Trim(s)
  {
    var t := Trim(s);
    var u := TrimStart(s);
    if t != [] {
      assert t[0] == u[0];
      TrimUnchanged(t);
    }
  }

  /** Length of the white-space-free run at the start of `s`. */
  function WordLen(s: string): (n: nat)
    ensures n <= |s|
    ensures forall i :: 0 <= i < n ==> !IsWhitespace(s[i])
    ensures n < |s| ==> IsWhitespace(s[n])
    decreases |s|
  {
    if s == [] || IsWhitespace(s[0]) then 0 else 1 + WordLen(s[1..])
  }

  /** `str::split_whitespace`: the maximal white-space-free runs, in order. */
  function SplitWhitespace(s: string): (r: seq<string>)
    ensures forall k :: 0 <= k < |r| ==> r[k] != [] && NoWhitespace(r[k])
    decreases |s|
  {
    if s == [] then []
    else if IsWhitespace(s[0]) then SplitWhitespace(s[1..])
    else
      var n := WordLen(s);
      [s[..n]] + SplitWhitespace(s[n..])
  }

  /** White space alone splits into no tokens at all. */
  lemma {:induction false} SplitWhitespaceBlank(s: string)
    requires forall i :: 0 <= i < |s| ==> IsWhitespace(s[i])
    ensures SplitWhitespace(s) == []
    decreases |s|
  {
    if s != [] {
      SplitWhitespaceBlank(s[1..]);
    }
  }

  /** Tokens joined by single spaces split back into the same tokens. */
  lemma {:induction false} SplitWhitespaceJoin(tokens: seq<string>)
    requires forall k :: 0 <= k < |tokens| ==> tokens[k] != [] && NoWhitespace(tokens[k])
    ensures SplitWhitespace(Join(tokens, ' ')) == tokens
    decreases |tokens|
  {
    if |tokens| == 0 {
    } else {
      var t := tokens[0];
      var rest := if |tokens| == 1 then "" else [' '] + Join(tokens[1..], ' ');
      var s := t + rest;
      assert Join(tokens, ' ') == s;
      assert forall j :: 0 <= j < |t| ==> s[j] == t[j];
      assert |tokens| > 1 ==> s[|t|] == ' ';
      assert WordLen(s) == |t|;
      assert s[..|t|] == t;
      assert s[|t|..] == rest;
      if |tokens| > 1 {
        SplitWhitespaceJoin(tokens[1..]);
        assert rest[1..] == Join(tokens[1..], ' ');
      }
    }
  }

  /** Text made only of white space (possibly none). */
  predicate Blank(s: string) {
    forall i :: 0 <= i < |s| ==> IsWhitespace(s[i])
  }

  /** `gaps[0] + tokens[0] + gaps[1] + ... + tokens[n - 1] + gaps[n]`. */
  function Interleave(gaps: seq<string>, tokens: seq<string>): string
    requires |gaps| == |tokens| + 1
    decreases |tokens|
  {
    if tokens == [] then gaps[0] else gaps[0] + tokens[0] + Interleave(gaps[1..], tokens[1..])
  }

  /** `s` is `tokens` laid out between white-space gaps, every gap between
      two tokens being non-empty: the tokens are the maximal
      white-space-free runs of `s`, in order. */
  predicate RunsOf(s: string, tokens: seq<string>, gaps: seq<string>) {
    |gaps| == |tokens| + 1
    && (forall k :: 0 <= k < |gaps| ==> Blank(gaps[k]))
    && (forall k :: 0 < k < |tokens| ==> gaps[k] != [])
    && s == Interleave(gaps, tokens)
  }

  /** The tokens of `split_whitespace` are the maximal white-space-free runs
      of the text, in order: the text is those tokens separated by white
      space. */
  lemma {:induction false} SplitWhitespaceRuns(s: string)
    ensures exists gaps :: RunsOf(s, SplitWhitespace(s), gaps)
    decreases |s|
  {
    if s == [] {
      assert Interleave([""], []) == "";
      assert RunsOf(s, SplitWhitespace(s), [""]);
    } else if IsWhitespace(s[0]) {
      var tokens := SplitWhitespace(s[1..]);
      SplitWhitespaceRuns(s[1..]);
      var g :| RunsOf(s[1..], tokens, g);
      RunsAfterBlank(s, tokens, g);
      assert SplitWhitespace(s) == tokens;
      assert RunsOf(s, SplitWhitespace(s), [[s[0]] + g[0]] + g[1..]);
    } else {
      var n := WordLen(s);
      var tokens := SplitWhitespace(s[n..]);
      SplitWhitespaceRuns(s[n..]);
      var g :| RunsOf(s[n..], tokens, g);
      RunsAfterWord(s, n, tokens, g);
      assert SplitWhitespace(s) == [s[..n]] + tokens;
      assert RunsOf(s, SplitWhitespace(s), [""] + g);
    }
  }

  /** A white-space character in front widens the first gap. */
  lemma RunsAfterBlank(s: string, tokens: seq<string>, g: seq<string>)
    requires s != [] && IsWhitespace(s[0])
    requires RunsOf(s[1..], tokens, g)
    ensures RunsOf(s, tokens, [[s[0]] + g[0]] + g[1..])
  {
    var gaps := [[s[0]] + g[0]] + g[1..];
    InterleaveWiden(g, tokens, [s[0]]);
    assert forall k :: 0 < k < |gaps| ==> gaps[k] == g[k];
  }

  /** A word in front, followed by white space or nothing, is one more token
      behind an empty first gap. */
  lemma RunsAfterWord(s: string, n: nat, tokens: seq<string>, g: seq<string>)
    requires 0 < n <= |s| && (n < |s| ==> IsWhitespace(s[n]))
    requires forall k :: 0 <= k < |tokens| ==> tokens[k] != [] && NoWhitespace(tokens[k])
    requires RunsOf(s[n..], tokens, g)
    ensures RunsOf(s, [s[..n]] + tokens, [""] + g)
  {
    var gaps := [""] + g;
    var all := [s[..n]] + tokens;
    assert gaps[1..] == g && all[1..] == tokens;
    assert Interleave(gaps, all) == s[..n] + s[n..];
    if tokens != [] {
      FirstGapNonEmpty(s[n..], tokens, g);
    }
    assert forall k :: 0 < k < |gaps| ==> gaps[k] == g[k - 1];
  }

  /** Text that starts with white space (or is empty) cannot have an empty
      first gap in front of a non-empty token. */
  lemma FirstGapNonEmpty(u: string, tokens: seq<string>, g: seq<string>)
    requires tokens != [] && tokens[0] != [] && NoWhitespace(tokens[0])
    requires u == [] || IsWhitespace(u[0])
    requires RunsOf(u, tokens, g)
    ensures g[0] != []
  {
    assert u == g[0] + tokens[0] + Interleave(g[1..], tokens[1..]);
    assert !IsWhitespace(tokens[0][0]);
  }

  /** Widening the first gap widens the text at its front. */
  lemma InterleaveWiden(gaps: seq<string>, tokens: seq<string>, w: string)
    requires |gaps| == |tokens| + 1
    ensures Interleave([w + gaps[0]] + gaps[1..], tokens) == w + Interleave(gaps, tokens)
  {
    var wide := [w + gaps[0]] + gaps[1..];
    assert wide[1..] == gaps[1..];
  }

  /** Conversely, any layout of non-empty white-space-free tokens between
      white-space gaps splits back into exactly those tokens. */
  lemma {:induction false} SplitWhitespaceUnique(s: string, tokens: seq<string>, gaps: seq<string>)
    requires forall k :: 0 <= k < |tokens| ==> tokens[k] != [] && NoWhitespace(tokens[k])
    requires RunsOf(s, tokens, gaps)
    ensures SplitWhitespace(s) == tokens
    decreases |tokens|
  {
    if tokens == [] {
      SplitWhitespaceBlank(s);
    } else {
      var rest := Interleave(gaps[1..], tokens[1..]);
      RunsOfTail(s, tokens, gaps);
      SplitWhitespaceUnique(rest, tokens[1..], gaps[1..]);
      SplitWhitespaceWord(tokens[0], rest);
      SplitWhitespaceSkip(gaps[0], tokens[0] + rest);
      assert tokens == [tokens[0]] + tokens[1..];
    }
  }

  /** Behind the first gap and token, the rest of the text is laid out the
      same way and starts with white space, if anything. */
  lemma RunsOfTail(s: string, tokens: seq<string>, gaps: seq<string>)
    requires tokens != [] && RunsOf(s, tokens, gaps)
    ensures var rest := Interleave(gaps[1..], tokens[1..]);
      RunsOf(rest, tokens[1..], gaps[1..])
      && (rest == [] || IsWhitespace(rest[0]))
      && s == gaps[0] + (tokens[0] + rest)
  {
    var rest := Interleave(gaps[1..], tokens[1..]);
    assert forall k :: 0 < k < |tokens| - 1 ==> gaps[1..][k] == gaps[k + 1];
    if |tokens| > 1 {
      assert gaps[1] != [];
      assert rest[0] == gaps[1][0];
    }
  }

  /** Leading white space yields no token. */
  lemma {:induction false} SplitWhitespaceSkip(w: string, s: string)
    requires Blank(w)
    ensures SplitWhitespace(w + s) == SplitWhitespace(s)
    decreases |w|
  {
    if w == [] {
      assert w + s == s;
    } else {
      assert (w + s)[0] == w[0];
      assert (w + s)[1..] == w[1..] + s;
      SplitWhitespaceSkip(w[1..], s);
    }
  }

  /** A white-space-free word followed by white space (or nothing) is the
      first token. */
  lemma SplitWhitespaceWord(t: string, rest: string)
    requires t != [] && NoWhitespace(t)
    requires rest == [] || IsWhitespace(rest[0])
    ensures SplitWhitespace(t + rest) == [t] + SplitWhitespace(rest)
  {
    var s := t + rest;
    assert forall j :: 0 <= j < |t| ==> s[j] == t[j];
    assert rest != [] ==> s[|t|] == rest[0];
    assert WordLen(s) == |t|;
    assert s[..|t|] == t;
    assert s[|t|..] == rest;
  }

  // ---------------------------------------------------------------------------
  // Radix numerals

  /** The digit for `d` as Rust's formatting writes it (lower case). */
  function DigitChar(d: nat): char
    requires d < 36
  {
    if d < 10 then ('0' as int + d) as char else ('a' as int + d - 10) as char
  }

  /** `char::to_digit(36)`: `0`-`9`, then `a`-`z` or `A`-`Z` for 10-35. */
  function DigitValue(c: char): (v: Option<nat>)
    ensures v.Some? ==> v.value < 36
  {
    if '0' <= c <= '9' then Some(c as int - '0' as int)
    else if 'a' <= c <= 'z' then Some(c as int - 'a' as int + 10)
    else if 'A' <= c <= 'Z' then Some(c as int - 'A' as int + 10)
    else None
  }

  /** `n` written in base `radix`, most significant digit first, no leading zeros. */
  function Digits(n: nat, radix: nat): (s: string)
    requires 2 <= radix <= 36
    decreases n
  {
    if n < radix then [DigitChar(n)]
    else
      DivMod(n, radix);
      Digits(n / radix, radix) + [DigitChar(n % radix)]
  }

  /** The value of a non-empty digit string in base `radix`, or None when it
      is empty or some character is not a digit below `radix`. */
  function DigitsValue(s: string, radix: nat): Option<nat>
    requires 2 <= radix <= 36
    decreases |s|
  {
    if s == [] then None
    else
      var d := DigitValue(s[|s| - 1]);
      if d.None? || d.value >= radix then None
      else if |s| == 1 then Some(d.value)
      else match DigitsValue(s[..|s| - 1], radix)
        case None => None
        case Some(v) => ProductNat(v, radix); Some(v * radix + d.value)
  }

  /** A product of naturals is a natural. */
  lemma ProductNat(a: nat, b: nat)
    ensures a * b >= 0
  {
  }

  /** Division by the radix, spelled out for the digit lemmas. */
  lemma DivMod(n: nat, radix: nat)
    requires 2 <= radix <= 36 && n >= radix
    ensures n == (n / radix) * radix + n % radix
    ensures 0 <= n % radix < radix
    ensures 0 < n / radix < n
  {
  }

  /** Every digit reads back as its value. */
  lemma DigitCharValue(d: nat)
    requires d < 36
    ensures DigitValue(DigitChar(d)) == Some(d)
    ensures !IsWhitespace(DigitChar(d))
  {
  }

  /** Numerals are non-empty and made of digits below the radix only (no
      sign, no white space). */
  lemma {:induction false} DigitsShape(n: nat, radix: nat)
    requires 2 <= radix <= 36
    ensures Digits(n, radix) != []
    ensures forall i :: 0 <= i < |Digits(n, radix)| ==>
      DigitValue(Digits(n, radix)[i]).Some? && DigitValue(Digits(n, radix)[i]).value < radix
    ensures NoWhitespace(Digits(n, radix))
    decreases n
  {
    if n < radix {
      DigitCharValue(n);
    } else {
      DivMod(n, radix);
      var q, r := n / radix, n % radix;
      DigitsShape(q, radix);
      DigitCharValue(r);
      var s := Digits(n, radix);
      assert s == Digits(q, radix) + [DigitChar(r)];
      forall i | 0 <= i < |s|
        ensures DigitValue(s[i]).Some? && DigitValue(s[i]).value < radix && !IsWhitespace(s[i])
      {
        if i < |s| - 1 { assert s[i] == Digits(q, radix)[i]; }
      }
    }
  }

  /** Reading a numeral back gives the number written. */
  lemma {:induction false} DigitsRoundTrip(n: nat, radix: nat)
    requires 2 <= radix <= 36
    ensures DigitsValue(Digits(n, radix), radix) == Some(n)
    decreases n
  {
    if n < radix {
      DigitCharValue(n);
    } else {
      DivMod(n, radix);
      var q, r := n / radix, n % radix;
      var s := Digits(n, radix);
      DigitsShape(q, radix);
      DigitCharValue(r);
      assert s == Digits(q, radix) + [DigitChar(r)];
      assert s[..|s| - 1] == Digits(q, radix);
      DigitsRoundTrip(q, radix);
      assert DigitsValue(s, radix) == Some(q * radix + r);
    }
  }
}
