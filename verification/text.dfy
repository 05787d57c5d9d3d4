/** The Python `str` primitives the bot relies on: whitespace classification
    (`str.isspace`, which is also what `\s` matches in a `str` regex),
    `str.strip`, `str.rfind(" ", 0, end)`, joining a list of strings, and the
    whitespace-free view of a string in which the chunker's content guarantee
    is stated. Strings are sequences of Unicode code points, as in Python 3. */
module Text {

  /** Python's `c.isspace()`: the 29 code points Python 3 treats as whitespace. */
  predicate IsSpace(c: char) {
    ('\t' <= c <= '\r') || ('\U{1C}' <= c <= ' ') || c == '\U{85}' || c == '\U{A0}'
    || c == '\U{1680}' || ('\U{2000}' <= c <= '\U{200A}') || c == '\U{2028}' || c == '\U{2029}'
    || c == '\U{202F}' || c == '\U{205F}' || c == '\U{3000}'
  }

  /** Every character of `s` is whitespace. */
  predicate Blank(s: string) {
    forall i :: 0 <= i < |s| ==> IsSpace(s[i])
  }

  /** `s` neither begins nor ends with whitespace, so `s.strip() == s`. */
  predicate Stripped(s: string) {
    s == [] || (!IsSpace(s[0]) && !IsSpace(s[|s| - 1]))
  }

  /** `s.lstrip()`: what is left of `s` after dropping its leading whitespace. */
  function TrimStart(s: string): (r: string)
    ensures |r| <= |s|
    ensures r == [] || !IsSpace(r[0])
    ensures |s| > 0 && IsSpace(s[0]) ==> |r| < |s|
  {
    if |s| > 0 && IsSpace(s[0]) then TrimStart(s[1..]) else s
  }

  /** `s.rstrip()`: what is left of `s` after dropping its trailing whitespace. */
  function TrimEnd(s: string): (r: string)
    ensures |r| <= |s|
    ensures r == [] || !IsSpace(r[|r| - 1])
    ensures r != [] ==> r[0] == s[0]
    ensures |s| > 0 && !IsSpace(s[0]) ==> r != []
  {
    if |s| > 0 && IsSpace(s[|s| - 1]) then TrimEnd(s[..|s| - 1]) else s
  }

  /** `lstrip` removes a blank head and keeps the rest as it is. */
  lemma {:induction false} TrimStartIsSuffix(s: string)
    ensures var r := TrimStart(s);
      r == s[|s| - |r|..] && Blank(s[..|s| - |r|])
  {
    if |s| > 0 && IsSpace(s[0]) {
      var r := TrimStart(s[1..]);
      TrimStartIsSuffix(s[1..]);
      assert s[1..][|s| - 1 - |r|..] == s[|s| - |r|..];
      assert s[..|s| - |r|] == [s[0]] + s[1..][..|s| - 1 - |r|];
    } else {
      assert s[..0] == [];
    }
  }

  /** `rstrip` removes a blank tail and keeps the rest as it is. */
  lemma {:induction false} TrimEndIsPrefix(s: string)
    ensures var r := TrimEnd(s);
      r == s[..|r|] && Blank(s[|r|..])
  {
    if |s| > 0 && IsSpace(s[|s| - 1]) {
      var r := TrimEnd(s[..|s| - 1]);
      TrimEndIsPrefix(s[..|s| - 1]);
      assert s[..|s| - 1][..|r|] == s[..|r|];
      assert s[|r|..] == s[..|s| - 1][|r|..] + [s[|s| - 1]];
    } else {
      assert s[|s|..] == [];
    }
  }

  /** `s.strip()`. */
  function Strip(s: string): (r: string)
    ensures |r| <= |s| && Stripped(r)
    ensures |s| > 0 && IsSpace(s[0]) ==> |r| < |s|
    ensures |s| > 0 && !IsSpace(s[0]) ==> r != [] && r[0] == s[0]
    ensures Stripped(s) ==> r == s
  {
    TrimEnd(TrimStart(s))
  }

  /** `s.strip()` is the stretch of `s` between a blank head and a blank
      tail: nothing inside it is touched. */
  lemma {:induction false} StripIsInner(s: string)
    ensures var lead := |s| - |TrimStart(s)|;
      lead + |Strip(s)| <= |s| && Strip(s) == s[lead..lead + |Strip(s)|]
      && Blank(s[..lead]) && Blank(s[lead + |Strip(s)|..])
  {
    TrimStartIsSuffix(s);
    TrimEndIsPrefix(TrimStart(s));
    InnerSlice(s, TrimStart(s), Strip(s));
  }

  lemma InnerSlice(s: string, t: string, r: string)
    requires |r| <= |t| <= |s|
    requires t == s[|s| - |t|..] && Blank(s[..|s| - |t|])
    requires r == t[..|r|] && Blank(t[|r|..])
    ensures var lead := |s| - |t|;
      r == s[lead..lead + |r|] && Blank(s[..lead]) && Blank(s[lead + |r|..])
  {
    var lead := |s| - |t|;
    assert s[lead + |r|..] == t[|r|..];
  }

  /** `s.rfind(" ", 0, end)`: the last index below `end` that holds an ASCII
      space, or -1 when there is none. Only U+0020 is searched for. */
  function RFindSpace(s: string, end: nat): (r: int)
    requires end <= |s|
    ensures -1 <= r < end
    ensures r >= 0 ==> s[r] == ' '
    ensures forall i :: r < i < end ==> s[i] != ' '
  {
    if end == 0 then -1
    else if s[end - 1] == ' ' then end - 1
    else RFindSpace(s, end - 1)
  }

  /** `"".join(ss)`. */
  function Concat(ss: seq<string>): string {
    if ss == [] then [] else ss[0] + Concat(ss[1..])
  }

  /** The characters of `s` that are not whitespace, in their original order. */
  function Visible(s: string): (r: string)
    ensures |r| <= |s|
  {
    if s == [] then []
    else (if IsSpace(s[0]) then [] else [s[0]]) + Visible(s[1..])
  }

  lemma AppendAssoc<T>(a: seq<T>, b: seq<T>, c: seq<T>)
    ensures (a + b) + c == a + (b + c)
  {
  }

  lemma {:induction false} ConcatAppend(a: seq<string>, b: seq<string>)
    ensures Concat(a + b) == Concat(a) + Concat(b)
  {
    if a == [] {
      assert a + b == b;
    } else {
      assert (a + b)[1..] == a[1..] + b;
      ConcatAppend(a[1..], b);
    }
  }

  lemma {:induction false} VisibleAppend(a: string, b: string)
    ensures Visible(a + b) == Visible(a) + Visible(b)
  {
    if a == [] {
      assert a + b == b;
    } else {
      var head := if IsSpace(a[0]) then [] else [a[0]];
      assert (a + b)[0] == a[0];
      assert (a + b)[1..] == a[1..] + b;
      assert Visible(a + b) == head + Visible(a[1..] + b);
      VisibleAppend(a[1..], b);
      AppendAssoc(head, Visible(a[1..]), Visible(b));
    }
  }

  lemma {:induction false} VisibleOfBlank(s: string)
    requires Blank(s)
    ensures Visible(s) == []
  {
    if s != [] {
      VisibleOfBlank(s[1..]);
    }
  }

  lemma {:induction false} VisibleTrimStart(s: string)
    ensures Visible(TrimStart(s)) == Visible(s)
  {
    if |s| > 0 && IsSpace(s[0]) {
      VisibleTrimStart(s[1..]);
    }
  }

  lemma {:induction false} VisibleTrimEnd(s: string)
    ensures Visible(TrimEnd(s)) == Visible(s)
  {
    if |s| > 0 && IsSpace(s[|s| - 1]) {
      var init := s[..|s| - 1];
      VisibleTrimEnd(init);
      assert s == init + [s[|s| - 1]];
      VisibleAppend(init, [s[|s| - 1]]);
    }
  }

  /** Dropping a blank run between two strings keeps the visible characters. */
  lemma {:induction false} VisibleAroundBlank(a: string, gap: string, c: string)
    requires Blank(gap)
    ensures Visible(a + gap + c) == Visible(a) + Visible(c)
  {
    VisibleAppend(a + gap, c);
    VisibleAppend(a, gap);
    VisibleOfBlank(gap);
    assert Visible(a) + [] == Visible(a);
  }

  lemma ConcatOne(x: string)
    ensures Concat([x]) == x
  {
    assert [x][1..] == [];
    assert x + [] == x;
  }

  /** Stripping only ever removes whitespace. */
  lemma {:induction false} VisibleStrip(s: string)
    ensures Visible(Strip(s)) == Visible(s)
  {
    VisibleTrimStart(s);
    VisibleTrimEnd(TrimStart(s));
  }

  /** A string strips to nothing exactly when it has no visible character. */
  lemma {:induction false} BlankIffInvisible(s: string)
    ensures Strip(s) == [] <==> Visible(s) == []
  {
    VisibleStrip(s);
    var r := Strip(s);
    if r != [] {
      assert r == [r[0]] + r[1..];
      VisibleAppend([r[0]], r[1..]);
      assert Visible([r[0]]) == [r[0]];
    }
  }
}
