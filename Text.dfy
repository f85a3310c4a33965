/** Character and string primitives of Python's `str` that the chatbot and the
    document chunker rely on: whitespace, `strip()`, `lower()`, `split()`,
    substring tests, `" ".join(...)` and `str(n)` for natural numbers. */
module Text {

  /** Python's `str.isspace()` for one character: the characters that
      `strip()` and `split()` (with no argument) treat as whitespace. */
  predicate IsSpace(c: char) {
    IsSpaceCode(c as int)
  }

  predicate IsSpaceCode(n: int) {
    (9 <= n <= 13) || (28 <= n <= 32) || n == 0x85 || n == 0xA0 || n == 0x1680
    || (0x2000 <= n <= 0x200A) || n == 0x2028 || n == 0x2029 || n == 0x202F
    || n == 0x205F || n == 0x3000
  }

  predicate AllSpace(s: string) {
    forall i :: 0 <= i < |s| ==> IsSpace(s[i])
  }

  /** `s.lstrip()`: the suffix of `s` left after dropping leading whitespace. */
  function TrimStart(s: string): (r: string)
    ensures |r| <= |s| && r == s[|s| - |r|..]
    ensures AllSpace(s[..|s| - |r|])
    ensures r == [] || !IsSpace(r[0])
  {
    if s != [] && IsSpace(s[0]) then
      var r := TrimStart(s[1..]);
      assert s[1..][|s| - 1 - |r|..] == s[|s| - |r|..];
      r
    else s
  }

  /** `s.rstrip()`: the prefix of `s` left after dropping trailing whitespace. */
  function TrimEnd(s: string): (r: string)
    ensures |r| <= |s| && r == s[..|r|]
    ensures AllSpace(s[|r|..])
    ensures r == [] || !IsSpace(r[|r| - 1])
  {
    if s != [] && IsSpace(s[|s| - 1]) then
      var r := TrimEnd(s[..|s| - 1]);
      assert s[..|s| - 1][..|r|] == s[..|r|];
      assert forall i :: |r| <= i < |s| - 1 ==> s[i] == s[..|s| - 1][|r|..][i - |r|];
      r
    else s
  }

  /** `s.strip()`: `s` with a whitespace-only prefix and a whitespace-only
      suffix cut off, leaving nothing, or a string whose first and last
      characters are not whitespace. */
  function Strip(s: string): (r: string)
    ensures |r| <= |s|
    ensures exists i :: Framed(s, r, i)
    ensures r == [] <==> AllSpace(s)
    ensures r != [] ==> !IsSpace(r[0]) && !IsSpace(r[|r| - 1])
  {
    var t := TrimStart(s);
    var r := TrimEnd(t);
    StripPieces(s, t, r, |s| - |t|);
    r
  }

  /** `r` sits at offset `i` of `s` with only whitespace around it. */
  predicate Framed(s: string, r: string, i: int) {
    0 <= i <= |s| - |r| && r == s[i..i + |r|] && AllSpace(s[..i]) && AllSpace(s[i + |r|..])
  }

  /** Cutting a whitespace prefix off `s` and then a whitespace suffix off
      what is left. */
  lemma StripPieces(s: string, t: string, r: string, i: int)
    requires 0 <= i <= |s| && t == s[i..] && AllSpace(s[..i]) && (t == [] || !IsSpace(t[0]))
    requires |r| <= |t| && r == t[..|r|] && AllSpace(t[|r|..]) && (r == [] || !IsSpace(r[|r| - 1]))
    ensures |r| <= |s|
    ensures Framed(s, r, i)
    ensures r == [] <==> AllSpace(s)
    ensures r != [] ==> !IsSpace(r[0]) && !IsSpace(r[|r| - 1])
  {
    assert s[i + |r|..] == t[|r|..];
    assert r == s[i..i + |r|];
    if t == [] {
      assert s == s[..i];
    } else {
      assert r[0] == t[0] == s[i];
    }
  }

  /** Stripping a string with a leading space is the same as stripping the rest. */
  lemma StripLeadingSpace(s: string)
    ensures Strip(" " + s) == Strip(s)
  {
    assert (" " + s)[1..] == s;
  }

  /** `s.replace("\n", " ")`. */
  function ReplaceNewlines(s: string): (r: string)
    ensures |r| == |s|
    ensures forall i :: 0 <= i < |s| ==> r[i] == (if s[i] == '\n' then ' ' else s[i])
  {
    seq(|s|, i requires 0 <= i < |s| => if s[i] == '\n' then ' ' else s[i])
  }

  function LowerChar(c: char): char {
    if 'A' <= c <= 'Z' then (c as int + 32) as char else c
  }

  /** `s.lower()`, restricted to the ASCII letters. */
  function Lower(s: string): (r: string)
    ensures |r| == |s|
    ensures forall i :: 0 <= i < |s| ==> r[i] == LowerChar(s[i])
  {
    seq(|s|, i requires 0 <= i < |s| => LowerChar(s[i]))
  }

  /** Lowering leaves every character that is not an upper-case ASCII letter,
      in particular `?`, where it was. */
  lemma LowerKeepsQuestionMark(s: string)
    ensures '?' in s <==> '?' in Lower(s)
  {
    if '?' in s {
      var i :| 0 <= i < |s| && s[i] == '?';
      assert Lower(s)[i] == '?';
    }
    if '?' in Lower(s) {
      var i :| 0 <= i < |s| && Lower(s)[i] == '?';
      assert s[i] == '?';
    }
  }

  /** `sub` occurs in `s` starting at index `i`. */
  predicate OccursAt(s: string, sub: string, i: int) {
    0 <= i <= |s| - |sub| && s[i..i + |sub|] == sub
  }

  /** Python's `sub in s` for strings: whether `sub` occurs at some index. */
  function Contains(s: string, sub: string): (b: bool)
    ensures b <==> exists i :: OccursAt(s, sub, i)
    decreases |s|
  {
    if |sub| > |s| then false
    else if s[..|sub|] == sub then
      assert OccursAt(s, sub, 0);
      true
    else
      OccursShift(s, sub);
      Contains(s[1..], sub)
  }

  /** When `sub` does not start `s`, its occurrences in `s` are those in `s[1..]`
      shifted by one. */
  lemma OccursShift(s: string, sub: string)
    requires |sub| <= |s| && s[..|sub|] != sub
    ensures (exists i :: OccursAt(s[1..], sub, i)) <==> (exists i :: OccursAt(s, sub, i))
  {
    if exists i :: OccursAt(s[1..], sub, i) {
      var i :| OccursAt(s[1..], sub, i);
      assert s[i + 1..i + 1 + |sub|] == s[1..][i..i + |sub|];
      assert OccursAt(s, sub, i + 1);
    }
    if exists i :: OccursAt(s, sub, i) {
      var i :| OccursAt(s, sub, i);
      assert i != 0;
      assert s[1..][i - 1..i - 1 + |sub|] == s[i..i + |sub|];
      assert OccursAt(s[1..], sub, i - 1);
    }
  }

  /** `" ".join(ss)`. */
  function JoinSpaced(ss: seq<string>): string
  {
    if |ss| == 0 then ""
    else if |ss| == 1 then ss[0]
    else JoinSpaced(ss[..|ss| - 1]) + " " + ss[|ss| - 1]
  }

  /** Joining a concatenation of two non-empty lists puts one space between the halves. */
  lemma {:induction false} JoinSpacedAppend(a: seq<string>, b: seq<string>)
    requires a != [] && b != []
    ensures JoinSpaced(a + b) == JoinSpaced(a) + " " + JoinSpaced(b)
    decreases |b|
  {
    if |b| == 1 {
      assert (a + b)[..|a + b| - 1] == a;
    } else {
      var b' := b[..|b| - 1];
      assert (a + b)[..|a + b| - 1] == a + b';
      JoinSpacedAppend(a, b');
    }
  }

  function Digit(d: nat): char
    requires d < 10
  {
    (48 + d) as char
  }

  /** Reference reading of a string of decimal digits, most significant
      first: each digit multiplies what came before it by ten. */
  function DecimalValue(s: string): int
    decreases |s|
  {
    if s == [] then 0 else DecimalValue(s[..|s| - 1]) * 10 + (s[|s| - 1] as int - '0' as int)
  }

  /** `str(n)` for a natural number: its decimal digits, most significant
      first (see `NatToStringValue`). */
  function NatToString(n: nat): (r: string)
    ensures |r| >= 1
    ensures n < 10 <==> |r| == 1
    ensures forall i :: 0 <= i < |r| ==> '0' <= r[i] <= '9'
  {
    if n < 10 then [Digit(n)] else NatToString(n / 10) + [Digit(n % 10)]
  }

  /** `str(n)` reads back as `n` and has no leading zero, so it is the
      usual decimal rendering and not some other digit string. */
  lemma {:induction false} NatToStringValue(n: nat)
    ensures DecimalValue(NatToString(n)) == n
    ensures n > 0 ==> NatToString(n)[0] != '0'
    decreases n
  {
    if n >= 10 {
      var r := NatToString(n);
      NatToStringValue(n / 10);
      assert r[..|r| - 1] == NatToString(n / 10);
      assert r[0] == NatToString(n / 10)[0];
    }
  }

  /** Distinct numbers have distinct decimal renderings. */
  lemma {:induction false} NatToStringInjective(a: nat, b: nat)
    requires NatToString(a) == NatToString(b)
    ensures a == b
    decreases a
  {
    var ra, rb := NatToString(a), NatToString(b);
    if a >= 10 {
      assert b >= 10;
      assert ra[..|ra| - 1] == NatToString(a / 10);
      assert rb[..|rb| - 1] == NatToString(b / 10);
      NatToStringInjective(a / 10, b / 10);
      assert Digit(a % 10) == ra[|ra| - 1] == Digit(b % 10);
    }
  }

  /** Prefix-free tagging: `p + str(a) == p + str(b)` only when `a == b`. */
  lemma TaggedInjective(p: string, a: nat, b: nat)
    requires p + NatToString(a) == p + NatToString(b)
    ensures a == b
  {
    assert NatToString(a) == (p + NatToString(a))[|p|..];
    assert NatToString(b) == (p + NatToString(b))[|p|..];
    NatToStringInjective(a, b);
  }

  /** `s.endswith(suffix)`. */
  predicate EndsWith(s: string, suffix: string) {
    |suffix| <= |s| && s[|s| - |suffix|..] == suffix
  }

  /** The longest prefix of `s` that holds no whitespace. */
  function WordPrefix(s: string): (w: string)
    ensures |w| <= |s| && w == s[..|w|]
    ensures !exists i :: 0 <= i < |w| && IsSpace(w[i])
    ensures |w| < |s| ==> IsSpace(s[|w|])
    ensures s != [] && !IsSpace(s[0]) ==> w != []
  {
    if s == [] || IsSpace(s[0]) then [] else [s[0]] + WordPrefix(s[1..])
  }

  /** `s.split()` with no argument: the maximal runs of non-whitespace
      characters, in order. */
  function Words(s: string): seq<string>
    decreases |s|
  {
    if TrimStart(s) == [] then []
    else [WordPrefix(TrimStart(s))] + Words(TrimStart(s)[|WordPrefix(TrimStart(s))|..])
  }

  /** The concatenation of a list of lists, in order. */
  function Flatten<T>(xss: seq<seq<T>>): seq<T> {
    if xss == [] then [] else xss[0] + Flatten(xss[1..])
  }

  lemma {:induction false} FlattenAppend<T>(a: seq<seq<T>>, b: seq<seq<T>>)
    ensures Flatten(a + b) == Flatten(a) + Flatten(b)
    decreases |a|
  {
    if a == [] {
      assert a + b == b;
    } else {
      assert (a + b)[1..] == a[1..] + b;
      FlattenAppend(a[1..], b);
    }
  }

  /** `s` with every whitespace character removed. */
  function RemoveSpaces(s: string): string {
    if s == [] then [] else (if IsSpace(s[0]) then [] else [s[0]]) + RemoveSpaces(s[1..])
  }

  lemma {:induction false} RemoveSpacesAppend(a: string, b: string)
    ensures RemoveSpaces(a + b) == RemoveSpaces(a) + RemoveSpaces(b)
    decreases |a|
  {
    if a != [] {
      assert (a + b)[1..] == a[1..] + b;
      RemoveSpacesAppend(a[1..], b);
    } else {
      assert a + b == b;
    }
  }

  lemma {:induction false} RemoveSpacesOfSpaces(s: string)
    requires AllSpace(s)
    ensures RemoveSpaces(s) == []
    decreases |s|
  {
    if s != [] {
      RemoveSpacesOfSpaces(s[1..]);
    }
  }

  lemma {:induction false} RemoveSpacesOfWord(s: string)
    requires forall i :: 0 <= i < |s| ==> !IsSpace(s[i])
    ensures RemoveSpaces(s) == s
    decreases |s|
  {
    if s != [] {
      RemoveSpacesOfWord(s[1..]);
    }
  }

  /** A non-empty string without whitespace, as `split()` produces. */
  predicate IsWord(w: string) {
    w != [] && forall i :: 0 <= i < |w| ==> !IsSpace(w[i])
  }

  /** `s` splits into its leading whitespace, its first word and the rest. */
  lemma WordsStep(s: string)
    requires TrimStart(s) != []
    ensures var t := TrimStart(s); var w := WordPrefix(t);
      IsWord(w) && Words(s) == [w] + Words(t[|w|..]) &&
      RemoveSpaces(s) == w + RemoveSpaces(t[|w|..])
  {
    var t := TrimStart(s);
    var w := WordPrefix(t);
    WordsUnfold(s, t, w, t[|w|..]);
    RemoveSpacesStep(s, |s| - |t|, t, w, t[|w|..]);
  }

  /** Whitespace in front of a word and then the rest. */
  lemma RemoveSpacesStep(s: string, i: int, t: string, w: string, u: string)
    requires 0 <= i <= |s| && t == s[i..] && AllSpace(s[..i])
    requires |w| <= |t| && w == t[..|w|] && u == t[|w|..]
    requires forall k :: 0 <= k < |w| ==> !IsSpace(w[k])
    ensures RemoveSpaces(s) == w + RemoveSpaces(u)
  {
    var lead := s[..i];
    assert s == lead + t;
    RemoveSpacesAppend(lead, t);
    RemoveSpacesOfSpaces(lead);
    assert t == w + u;
    RemoveSpacesAppend(w, u);
    RemoveSpacesOfWord(w);
  }

  lemma WordsNone(s: string)
    requires TrimStart(s) == []
    ensures Words(s) == [] && RemoveSpaces(s) == []
  {
    assert s[..|s|] == s;
    RemoveSpacesOfSpaces(s);
  }

  /** The words of `s` are non-empty, hold no whitespace, and together they
      are exactly the non-whitespace characters of `s`, in order. */
  predicate Partitioned(s: string) {
    (forall k :: 0 <= k < |Words(s)| ==> IsWord(Words(s)[k]))
    && Flatten(Words(s)) == RemoveSpaces(s)
  }

  /** A word in front of a list of words. */
  lemma WordsCons(w: string, ws: seq<string>)
    requires IsWord(w) && forall k :: 0 <= k < |ws| ==> IsWord(ws[k])
    ensures forall k :: 0 <= k < |[w] + ws| ==> IsWord(([w] + ws)[k])
    ensures Flatten([w] + ws) == w + Flatten(ws)
  {
    assert ([w] + ws)[1..] == ws;
  }

  /** The first word in front of the partitioned rest. */
  lemma PartitionedStep(s: string)
    requires TrimStart(s) != []
    requires var t := TrimStart(s); Partitioned(t[|WordPrefix(t)|..])
    ensures Partitioned(s)
  {
    WordsStep(s);
    var t := TrimStart(s);
    var w := WordPrefix(t);
    WordsCons(w, Words(t[|w|..]));
  }

  lemma {:induction false} WordsPartition(s: string)
    ensures forall k :: 0 <= k < |Words(s)| ==> IsWord(Words(s)[k])
    ensures Flatten(Words(s)) == RemoveSpaces(s)
    decreases |s|
  {
    if TrimStart(s) == [] {
      WordsNone(s);
    } else {
      var t := TrimStart(s);
      WordsPartition(t[|WordPrefix(t)|..]);
      PartitionedStep(s);
    }
  }

  /** There are at most as many words as characters, and none exactly when
      the string is whitespace only. */
  lemma {:induction false} WordCountBounds(s: string)
    ensures |Words(s)| <= |s|
    ensures |Words(s)| == 0 <==> AllSpace(s)
    decreases |s|
  {
    var t := TrimStart(s);
    if t != [] {
      var w := WordPrefix(t);
      WordCountBounds(t[|w|..]);
      assert !IsSpace(s[|s| - |t|]) by { assert s[|s| - |t|] == t[0]; }
    } else {
      assert s[..|s|] == s;
    }
  }

  // ---------------------------------------------------------------------
  // split() cuts at every whitespace character and nowhere else
  // ---------------------------------------------------------------------

  /** A single word splits into itself: `split()` never cuts inside a run of
      non-whitespace characters. */
  lemma WordsOfWord(w: string)
    requires IsWord(w)
    ensures Words(w) == [w]
  {
    assert TrimStart(w) == w;
    assert WordPrefix(w) == w;
    assert w[|w|..] == [];
    assert TrimStart([]) == [];
  }

  lemma {:induction false} TrimStartSpaces(sp: string, y: string)
    requires AllSpace(sp)
    ensures TrimStart(sp + y) == TrimStart(y)
    decreases |sp|
  {
    if sp == [] {
      assert sp + y == y;
    } else {
      assert (sp + y)[1..] == sp[1..] + y;
      TrimStartSpaces(sp[1..], y);
    }
  }

  lemma {:induction false} TrimStartAppend(x: string, y: string)
    requires TrimStart(x) != []
    ensures TrimStart(x + y) == TrimStart(x) + y
    decreases |x|
  {
    assert (x + y)[0] == x[0];
    if IsSpace(x[0]) {
      assert TrimStart(x) == TrimStart(x[1..]);
      assert (x + y)[1..] == x[1..] + y;
      assert TrimStart(x + y) == TrimStart(x[1..] + y);
      TrimStartAppend(x[1..], y);
    } else {
      assert TrimStart(x) == x;
      assert TrimStart(x + y) == x + y;
    }
  }

  lemma {:induction false} WordPrefixAppend(t: string, y: string)
    requires |WordPrefix(t)| < |t| || (y != [] && IsSpace(y[0]))
    ensures WordPrefix(t + y) == WordPrefix(t)
    decreases |t|
  {
    if t == [] {
      assert t + y == y;
    } else if !IsSpace(t[0]) {
      assert (t + y)[1..] == t[1..] + y;
      WordPrefixAppend(t[1..], y);
    }
  }

  /** The words of a string are the words of its `lstrip()`. */
  lemma WordsTrim(x: string)
    ensures Words(x) == Words(TrimStart(x))
  {
    var t := TrimStart(x);
    assert t == [] || TrimStart(t) == t;
  }

  /** Every whitespace character is a word boundary: splitting `a + c + b`
      at a whitespace `c` gives the words of `a` followed by those of `b`.
      With `WordsOfWord` this fixes `split()` on every string. */
  lemma {:induction false} WordsSplitAtSpace(a: string, c: char, b: string)
    requires IsSpace(c)
    ensures Words(a + [c] + b) == Words(a) + Words(b)
    decreases |a|
  {
    var t := TrimStart(a);
    if t == [] {
      WordsBlankFront(a, c, b);
    } else {
      var w := WordPrefix(t);
      var u := t[|w|..];
      assert a + [c] + b == a + ([c] + b);
      assert u + [c] + b == u + ([c] + b);
      WordsFirstWord(a, [c] + b);
      WordsSplitAtSpace(u, c, b);
      ConsAppend(w, Words(u), Words(b));
    }
  }

  lemma ConsAppend<T>(x: T, l: seq<T>, r: seq<T>)
    ensures [x] + (l + r) == ([x] + l) + r
  {
  }

  /** A blank front and the space after it carry no words. */
  lemma WordsBlankFront(a: string, c: char, b: string)
    requires IsSpace(c) && TrimStart(a) == []
    ensures Words(a + [c] + b) == Words(a) + Words(b)
  {
    assert AllSpace(a) by { assert a[..|a|] == a; }
    var sp := a + [c];
    assert AllSpace(sp);
    WordsSpacesFront(sp, b);
    assert Words(a) == [];
  }

  /** Leading whitespace carries no words. */
  lemma WordsSpacesFront(sp: string, b: string)
    requires AllSpace(sp)
    ensures Words(sp + b) == Words(b)
  {
    TrimStartSpaces(sp, b);
    WordsTrim(sp + b);
    WordsTrim(b);
  }

  /** The first word of `a` is also the first word of `a + y` when `y`
      starts with whitespace. */
  lemma WordsFirstWord(a: string, y: string)
    requires y != [] && IsSpace(y[0]) && TrimStart(a) != []
    ensures var t := TrimStart(a); var w := WordPrefix(t);
      Words(a + y) == [w] + Words(t[|w|..] + y) &&
      Words(a) == [w] + Words(t[|w|..])
  {
    var t := TrimStart(a);
    var w := WordPrefix(t);
    WordsUnfold(a, t, w, t[|w|..]);
    WordsAfterFirst(a, y, t, w, t[|w|..]);
  }

  lemma WordsAfterFirst(a: string, y: string, t: string, w: string, u: string)
    requires y != [] && IsSpace(y[0])
    requires t == TrimStart(a) && t != [] && w == WordPrefix(t) && u == t[|w|..]
    ensures Words(a + y) == [w] + Words(u + y)
  {
    FrontAppend(a, y, t, w);
    DropAppend(t, y, |w|);
    WordsUnfold(a + y, t + y, w, u + y);
  }

  lemma DropAppend<T>(t: seq<T>, y: seq<T>, n: nat)
    requires n <= |t|
    ensures (t + y)[n..] == t[n..] + y
  {
  }

  /** Appending text that starts with whitespace keeps the `lstrip()` and the
      first word of `a`. */
  lemma FrontAppend(a: string, y: string, t: string, w: string)
    requires y != [] && IsSpace(y[0])
    requires t == TrimStart(a) && t != [] && w == WordPrefix(t)
    ensures TrimStart(a + y) == t + y && WordPrefix(t + y) == w
  {
    TrimStartAppend(a, y);
    WordPrefixAppend(t, y);
  }

  /** One step of `split()`: the first word, then the words of the rest. */
  lemma WordsUnfold(x: string, t: string, w: string, v: string)
    requires t == TrimStart(x) && t != [] && w == WordPrefix(t) && v == t[|w|..]
    ensures Words(x) == [w] + Words(v)
  {
  }

  /** Two words with one whitespace character between them split back into
      those two words. */
  lemma WordsOfTwo(v: string, c: char, w: string)
    requires IsWord(v) && IsSpace(c) && IsWord(w)
    ensures Words(v + [c] + w) == [v, w]
  {
    WordsOfWord(v);
    WordsOfWord(w);
    WordsSplitAtSpace(v, c, w);
  }
}
