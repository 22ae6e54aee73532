/**
 * The few Python `str` built-ins the converter relies on: `str.isspace`,
 * `str.strip()`, `str.split()` with no separator, `int(str)` and `str(int)`.
 */
module PyText {
  import opened Wrappers

  /** One character of Python's `str.isspace()`: the characters `split()` and `strip()` treat as blanks. */
  predicate IsSpace(c: char) {
    var n := c as int;
    (9 <= n <= 13) || (28 <= n <= 32) || n == 0x85 || n == 0xA0 || n == 0x1680
    || (0x2000 <= n <= 0x200A) || n == 0x2028 || n == 0x2029 || n == 0x202F
    || n == 0x205F || n == 0x3000
  }

  predicate AllSpace(s: string) {
    forall i :: 0 <= i < |s| ==> IsSpace(s[i])
  }

  /** A field of `split()`'s result: non-empty and free of blanks. */
  predicate IsToken(t: string) {
    t != [] && forall i :: 0 <= i < |t| ==> !IsSpace(t[i])
  }

  /** Number of blanks at the start of `s`. */
  function LeadingSpaces(s: string): (n: nat)
    ensures n <= |s| && AllSpace(s[..n])
    ensures n == |s| || !IsSpace(s[n])
  {
    if s == [] || !IsSpace(s[0]) then 0 else 1 + LeadingSpaces(s[1..])
  }

  /** Number of blanks at the end of `s`. */
  function TrailingSpaces(s: string): (n: nat)
    ensures n <= |s| && AllSpace(s[|s| - n..])
    ensures n == |s| || !IsSpace(s[|s| - n - 1])
  {
    if s == [] || !IsSpace(s[|s| - 1]) then 0 else 1 + TrailingSpaces(s[..|s| - 1])
  }

  /** `s.lstrip()`: `s` without its leading blanks. */
  function LStrip(s: string): (r: string)
    ensures r == [] || !IsSpace(r[0])
    ensures r == [] <==> AllSpace(s)
  {
    var n := LeadingSpaces(s);
    assert n == |s| ==> s[..n] == s;
    s[n..]
  }

  /** `s.rstrip()`: `s` without its trailing blanks. */
  function RStrip(s: string): (r: string)
    ensures r == [] || !IsSpace(r[|r| - 1])
    ensures r == [] <==> AllSpace(s)
    ensures r != [] ==> r[0] == s[0]
  {
    var n := TrailingSpaces(s);
    assert n == |s| ==> s[|s| - n..] == s;
    s[..|s| - n]
  }

  /** `s.strip()`: `s` without its leading and trailing blanks. */
  function Strip(s: string): (r: string)
    ensures r == [] || (!IsSpace(r[0]) && !IsSpace(r[|r| - 1]))
    ensures r == [] <==> AllSpace(s)
  {
    RStrip(LStrip(s))
  }

  /** `s.lstrip()` is what follows the blanks `s` starts with. */
  lemma LStripCut(s: string) returns (w: string)
    ensures s == w + LStrip(s) && AllSpace(w)
  {
    var n := LeadingSpaces(s);
    w := s[..n];
    assert s == w + s[n..];
  }

  /** `s.rstrip()` is what precedes the blanks `s` ends with. */
  lemma RStripCut(s: string) returns (w: string)
    ensures s == RStrip(s) + w && AllSpace(w)
  {
    var n := TrailingSpaces(s);
    var u := s[..|s| - n];
    w := s[|s| - n..];
    assert RStrip(s) == u;
    assert s == u + w;
  }

  /**
   * `s.strip()` is the part of `s` between its leading and its trailing
   * blanks: it starts at `i`, and everything before `i` and after it is a
   * blank.
   */
  lemma StripCut(s: string) returns (i: nat)
    ensures i + |Strip(s)| <= |s| && Strip(s) == s[i..i + |Strip(s)|]
    ensures AllSpace(s[..i]) && AllSpace(s[i + |Strip(s)|..])
  {
    var w1 := LStripCut(s);
    var w2 := RStripCut(LStrip(s));
    i := |w1|;
    SliceOfConcat(w1, Strip(s), w2);
  }

  /** The three parts of `a + b + c`, recovered by slicing. */
  lemma SliceOfConcat(a: string, b: string, c: string)
    ensures (a + b + c)[..|a|] == a && (a + b + c)[|a|..|a| + |b|] == b && (a + b + c)[|a| + |b|..] == c
  {
  }

  /**
   * `Strip`'s contract determines its result: a cut of `s` with only blanks
   * before and after it, and no blank at either of its ends, is `s.strip()`.
   */
  lemma StripUnique(s: string, i: nat, r: string)
    requires i + |r| <= |s| && r == s[i..i + |r|]
    requires AllSpace(s[..i]) && AllSpace(s[i + |r|..])
    requires r == [] || (!IsSpace(r[0]) && !IsSpace(r[|r| - 1]))
    ensures Strip(s) == r
  {
    if r == [] {
      assert AllSpace(s) by {
        forall k | 0 <= k < |s| ensures IsSpace(s[k]) {
          if k < i { assert s[k] == s[..i][k]; } else { assert s[k] == s[i..][k - i]; }
        }
      }
    } else {
      LeadingSpacesAt(s, i);
      var l := LStrip(s);
      assert l == s[i..];
      assert l[..|r|] == r && l[|r|..] == s[i + |r|..];
      TrailingSpacesAt(l, |l| - |r|);
      assert l[..|l| - (|l| - |r|)] == r;
    }
  }

  /** The blanks at the start of `s` are exactly `s[..n]` when `s[n]` is not one. */
  lemma LeadingSpacesAt(s: string, n: nat)
    requires n < |s| && AllSpace(s[..n]) && !IsSpace(s[n])
    ensures LeadingSpaces(s) == n
  {
  }

  /** The blanks at the end of `s` are exactly its last `n` characters when the one before them is not one. */
  lemma TrailingSpacesAt(s: string, n: nat)
    requires n < |s| && AllSpace(s[|s| - n..]) && !IsSpace(s[|s| - n - 1])
    ensures TrailingSpaces(s) == n
  {
  }

  /** Length of the run of non-blank characters that `s` starts with. */
  function TokenLength(s: string): (n: nat)
    ensures n <= |s|
    ensures forall i :: 0 <= i < n ==> !IsSpace(s[i])
    ensures n == |s| || IsSpace(s[n])
  {
    if s == [] || IsSpace(s[0]) then 0 else 1 + TokenLength(s[1..])
  }

  /** `s.split()`: the maximal runs of non-blank characters, in order. */
  function Split(s: string): (r: seq<string>)
    ensures forall t :: t in r ==> IsToken(t)
    decreases |s|
  {
    if s == [] then []
    else if IsSpace(s[0]) then Split(s[1..])
    else
      var n := TokenLength(s);
      [s[..n]] + Split(s[n..])
  }

  /** Runs of blanks that can stand between two fields: each non-empty and all blanks. */
  predicate Separators(seps: seq<string>) {
    forall w :: w in seps ==> w != [] && AllSpace(w)
  }

  /** The fields `tokens` with the blank run `seps[k]` between fields `k` and `k + 1`. */
  function JoinWith(tokens: seq<string>, seps: seq<string>): string
    requires |tokens| == |seps| + 1
    decreases |seps|
  {
    if seps == [] then tokens[0] else tokens[0] + seps[0] + JoinWith(tokens[1..], seps[1..])
  }

  /** A blank (or empty) line splits into no fields at all. */
  lemma {:induction false} SplitAllSpace(s: string)
    requires AllSpace(s)
    ensures Split(s) == []
    decreases |s|
  {
    if s != [] {
      assert IsSpace(s[0]);
      SplitAllSpace(s[1..]);
    }
  }

  /** Blanks in front of a string do not change how it splits. */
  lemma {:induction false} SplitLeadingSpace(w: string, u: string)
    requires AllSpace(w)
    ensures Split(w + u) == Split(u)
    decreases |w|
  {
    if w != [] {
      assert (w + u)[0] == w[0] && IsSpace(w[0]);
      assert (w + u)[1..] == w[1..] + u;
      assert AllSpace(w[1..]) by {
        forall i | 0 <= i < |w| - 1 ensures IsSpace(w[1..][i]) { assert w[1..][i] == w[i + 1]; }
      }
      SplitLeadingSpace(w[1..], u);
    } else {
      assert w + u == u;
    }
  }

  /** Blanks after a string do not change how it splits. */
  lemma {:induction false} SplitTrailingSpace(u: string, w: string)
    requires AllSpace(w)
    ensures Split(u + w) == Split(u)
    decreases |u|
  {
    if u == [] {
      assert u + w == w;
      SplitAllSpace(w);
    } else if IsSpace(u[0]) {
      assert (u + w)[1..] == u[1..] + w;
      SplitTrailingSpace(u[1..], w);
    } else {
      var n := TokenLength(u);
      var m := TokenLength(u + w);
      if n < |u| {
        assert IsSpace((u + w)[n]);
        assert m == n by { TokenLengthPrefix(u + w, n); }
      } else {
        assert m == n by { TokenLengthPrefix(u + w, n); }
      }
      assert (u + w)[..n] == u[..n];
      assert (u + w)[n..] == u[n..] + w;
      SplitTrailingSpace(u[n..], w);
    }
  }

  /** The first field ends exactly at the first blank. */
  lemma TokenLengthPrefix(s: string, n: nat)
    requires n <= |s|
    requires forall i :: 0 <= i < n ==> !IsSpace(s[i])
    requires n == |s| || IsSpace(s[n])
    ensures TokenLength(s) == n
  {
  }

  /** `lstrip()` before `split()` changes nothing: `s.lstrip().split() == s.split()`. */
  lemma SplitLStrip(s: string)
    ensures Split(LStrip(s)) == Split(s)
  {
    var w := LStripCut(s);
    SplitLeadingSpace(w, LStrip(s));
  }

  /** `rstrip()` before `split()` changes nothing: `s.rstrip().split() == s.split()`. */
  lemma SplitRStrip(s: string)
    ensures Split(RStrip(s)) == Split(s)
  {
    var w := RStripCut(s);
    SplitTrailingSpace(RStrip(s), w);
  }

  /** `strip()` before `split()` changes nothing: `s.strip().split() == s.split()`. */
  lemma SplitStrip(s: string)
    ensures Split(Strip(s)) == Split(s)
  {
    SplitLStrip(s);
    SplitRStrip(LStrip(s));
  }

  /** A line with blanks around its fields splits into exactly those fields. */
  lemma SplitPadded(pre: string, tokens: seq<string>, seps: seq<string>, post: string)
    requires AllSpace(pre) && AllSpace(post) && Separators(seps)
    requires |tokens| == |seps| + 1 && forall t :: t in tokens ==> IsToken(t)
    ensures Split(Strip(pre + JoinWith(tokens, seps) + post)) == tokens
  {
    var line := JoinWith(tokens, seps);
    assert Split(pre + line + post) == tokens by {
      assert pre + line + post == pre + (line + post);
      SplitLeadingSpace(pre, line + post);
      SplitTrailingSpace(line, post);
      SplitJoinWith(tokens, seps);
    }
    SplitStrip(pre + line + post);
  }

  /**
   * Round trip: splitting fields joined by any non-empty runs of blanks (a
   * space, a tab, several of them) gives the fields back.
   */
  lemma {:induction false} SplitJoinWith(tokens: seq<string>, seps: seq<string>)
    requires |tokens| == |seps| + 1 && forall t :: t in tokens ==> IsToken(t)
    requires Separators(seps)
    ensures Split(JoinWith(tokens, seps)) == tokens
    decreases |seps|
  {
    var t := tokens[0];
    assert t in tokens && IsToken(t);
    if seps == [] {
      TokenLengthPrefix(t, |t|);
      assert t[..|t|] == t && t[|t|..] == [];
    } else {
      var w := seps[0];
      assert w in seps;
      var rest := JoinWith(tokens[1..], seps[1..]);
      var s := t + w + rest;
      assert s[0] == t[0] && s[|t|] == w[0];
      TokenLengthPrefix(s, |t|);
      assert s[..|t|] == t;
      assert s[|t|..] == w + rest;
      SplitLeadingSpace(w, rest);
      assert forall u :: u in tokens[1..] ==> u in tokens;
      assert forall v :: v in seps[1..] ==> v in seps;
      SplitJoinWith(tokens[1..], seps[1..]);
    }
  }

  /** `s` is the blanks `pre`, then the fields `Split(s)` joined by the blank runs `seps`, then the blanks `post`; a string without fields is all blanks. */
  predicate Covers(s: string, pre: string, seps: seq<string>, post: string) {
    AllSpace(pre) && AllSpace(post) && Separators(seps)
    && (Split(s) == [] ==> s == pre && seps == [] && post == [])
    && (Split(s) != [] ==> |Split(s)| == |seps| + 1 && s == pre + JoinWith(Split(s), seps) + post)
  }

  /**
   * Every string is its `split()` fields with blanks before, between and after
   * them; with `SplitPadded` this determines `Split` on every string.
   */
  lemma {:induction false} SplitCovers(s: string) returns (pre: string, seps: seq<string>, post: string)
    ensures Covers(s, pre, seps, post)
    decreases |s|
  {
    if s == [] {
      pre, seps, post := [], [], [];
    } else if IsSpace(s[0]) {
      var pre', seps', post' := SplitCovers(s[1..]);
      pre, seps, post := [s[0]] + pre', seps', post';
      CoversSpace(s, pre', seps, post);
    } else {
      var n := TokenLength(s);
      var pre', seps', post' := SplitCovers(s[n..]);
      pre, seps, post := CoversToken(s, pre', seps', post');
    }
  }

  /** A leading blank joins the blanks in front of the first field. */
  lemma CoversSpace(s: string, pre: string, seps: seq<string>, post: string)
    requires s != [] && IsSpace(s[0]) && Covers(s[1..], pre, seps, post)
    ensures Covers(s, [s[0]] + pre, seps, post)
  {
    assert s == [s[0]] + s[1..] && Split(s) == Split(s[1..]);
    assert AllSpace([s[0]] + pre) by {
      forall k | 0 <= k < |pre| + 1 ensures IsSpace(([s[0]] + pre)[k]) {
        if k > 0 { assert ([s[0]] + pre)[k] == pre[k - 1]; }
      }
    }
  }

  /** A leading field goes in front of the fields of the rest, separated by the blanks in front of them. */
  lemma CoversToken(s: string, pre': string, seps': seq<string>, post': string)
    returns (pre: string, seps: seq<string>, post: string)
    requires s != [] && !IsSpace(s[0]) && Covers(s[TokenLength(s)..], pre', seps', post')
    ensures Covers(s, pre, seps, post)
  {
    var n := TokenLength(s);
    var tok := s[..n];
    var rest := s[n..];
    var ts := Split(rest);
    assert s == tok + rest && Split(s) == [tok] + ts;
    if ts == [] {
      pre, seps, post := [], [], rest;
      assert JoinWith([tok], []) == tok;
    } else {
      var j := JoinWith(ts, seps');
      assert pre' != [] by {
        assert ts[0] in ts;
        JoinWithFirst(ts, seps');
        assert rest != [] && rest[0] == s[n];
      }
      pre, seps, post := [], [pre'] + seps', post';
      JoinWithCons(tok, ts, pre', seps');
      assert s == tok + (pre' + j + post');
    }
  }

  /** A line of fields starts with the first character of its first field. */
  lemma JoinWithFirst(tokens: seq<string>, seps: seq<string>)
    requires |tokens| == |seps| + 1 && tokens[0] != []
    ensures JoinWith(tokens, seps) != [] && JoinWith(tokens, seps)[0] == tokens[0][0]
  {
  }

  /** A line of fields with one more field and blank run in front. */
  lemma JoinWithCons(t: string, tokens: seq<string>, w: string, seps: seq<string>)
    requires |tokens| == |seps| + 1
    ensures JoinWith([t] + tokens, [w] + seps) == t + w + JoinWith(tokens, seps)
  {
    assert ([t] + tokens)[1..] == tokens && ([w] + seps)[1..] == seps;
  }

  /** An ASCII decimal digit. */
  predicate IsDigit(c: char) {
    '0' <= c <= '9'
  }

  /**
   * A decimal literal as `int()` reads it: ASCII digits, where a single `_` may
   * stand between two digits.
   */
  predicate IsDigitString(t: string) {
    t != [] && IsDigit(t[0]) && IsDigit(t[|t| - 1])
    && forall i :: 0 <= i < |t| ==> IsDigit(t[i]) || (t[i] == '_' && i + 1 < |t| && IsDigit(t[i + 1]))
  }

  /** Value of the digits of `t`, ignoring `_`. */
  function DigitsValue(t: string): nat
    decreases |t|
  {
    if t == [] then 0
    else if IsDigit(t[|t| - 1]) then 10 * DigitsValue(t[..|t| - 1]) + ((t[|t| - 1] as int) - ('0' as int))
    else DigitsValue(t[..|t| - 1])
  }

  /** `int(t)` for a field `t` of `split()`: `None` where Python raises `ValueError`. */
  function ParseInt(t: string): Option<int> {
    if t != [] && (t[0] == '+' || t[0] == '-') then
      if IsDigitString(t[1..]) then
        var v: int := DigitsValue(t[1..]);
        Some(if t[0] == '-' then -v else v)
      else None
    else if IsDigitString(t) then Some(DigitsValue(t))
    else None
  }

  /** Decimal digits of `n`, most significant first, without leading zeros. */
  function Decimal(n: nat): (r: string)
    ensures r != [] && forall i :: 0 <= i < |r| ==> IsDigit(r[i])
  {
    var d := [(('0' as int) + n % 10) as char];
    if n < 10 then d else Decimal(n / 10) + d
  }

  /** `str(n)`. */
  function Show(n: int): string {
    if n < 0 then "-" + Decimal(-n) else Decimal(n)
  }

  lemma {:induction false} DecimalValue(n: nat)
    ensures DigitsValue(Decimal(n)) == n
    decreases n
  {
    var r := Decimal(n);
    if n >= 10 {
      DecimalValue(n / 10);
      assert r[..|r| - 1] == Decimal(n / 10);
    }
  }

  /**
   * Round trip of the model's `ParseInt` and `Show`: `ParseInt(Show(n)) == Some(n)`,
   * and `Show(n)` is a field. Python's digit limit on `int()` and `str()` is
   * not part of this model.
   */
  lemma ParseIntShow(n: int)
    ensures ParseInt(Show(n)) == Some(n)
    ensures IsToken(Show(n))
  {
    var m := if n < 0 then -n else n;
    DecimalValue(m);
    var d := Decimal(m);
    assert IsDigitString(d);
    if n < 0 {
      var s := Show(n);
      assert s == "-" + d && s[0] == '-' && s[1..] == d;
      assert IsToken(s) by {
        forall i | 0 <= i < |s| ensures !IsSpace(s[i]) {
          if i > 0 { assert s[i] == d[i - 1]; }
        }
      }
    } else {
      assert Show(n) == d && d[0] != '+' && d[0] != '-';
    }
  }
}
