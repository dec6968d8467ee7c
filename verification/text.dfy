/** String helpers the panel takes from Go's `strings` package. */
module Text {

  /** Unicode white space, as `unicode.IsSpace` lists it. */
  predicate IsSpace(c: char) {
    || c in {' ', '\t', '\n', '\U{0B}', '\U{0C}', '\r', '\U{85}', '\U{A0}', '\U{1680}'}
    || '\U{2000}' <= c <= '\U{200A}'
    || c in {'\U{2028}', '\U{2029}', '\U{202F}', '\U{205F}', '\U{3000}'}
  }

  /** True when trimming white space leaves the string as it is. */
  predicate Tidy(s: string) {
    s != "" ==> !IsSpace(s[0]) && !IsSpace(s[|s| - 1])
  }

  predicate AllSpace(s: string) { forall i | 0 <= i < |s| :: IsSpace(s[i]) }

  function TrimLeft(s: string): (r: string)
    ensures r != "" ==> !IsSpace(r[0])
    ensures s != "" && !IsSpace(s[0]) ==> r == s
    ensures |r| <= |s| && r == s[|s| - |r|..]
  {
    if s != "" && IsSpace(s[0]) then TrimLeft(s[1..]) else s
  }

  function TrimRight(s: string): (r: string)
    ensures r != "" ==> !IsSpace(r[|r| - 1])
    ensures s != "" && !IsSpace(s[|s| - 1]) ==> r == s
    ensures r <= s
  {
    if s != "" && IsSpace(s[|s| - 1]) then TrimRight(s[..|s| - 1]) else s
  }

  function TrimSpace(s: string): (r: string)
    ensures Tidy(r)
    ensures Tidy(s) ==> r == s
  {
    TrimRight(TrimLeft(s))
  }

  function LowerChar(c: char): (r: char)
    ensures !('A' <= r <= 'Z') && (!('A' <= c <= 'Z') ==> r == c)
    ensures IsSpace(r) == IsSpace(c)
  {
    if 'A' <= c <= 'Z' then (c as int + 32) as char else c
  }

  function ToLower(s: string): (r: string)
    ensures |r| == |s|
    ensures forall i | 0 <= i < |s| :: r[i] == LowerChar(s[i])
  {
    seq(|s|, i requires 0 <= i < |s| => LowerChar(s[i]))
  }

  predicate EqualFold(a: string, b: string) {
    ToLower(a) == ToLower(b)
  }

  lemma LowerIsIdempotent(s: string)
    ensures ToLower(ToLower(s)) == ToLower(s)
  {
  }

  lemma {:induction false} TrimLeftAndLower(s: string)
    ensures TrimLeft(ToLower(s)) == ToLower(TrimLeft(s))
  {
    hide IsSpace, LowerChar;
    if s == "" {
    } else {
      assert ToLower(s)[1..] == ToLower(s[1..]);
      TrimLeftAndLower(s[1..]);
    }
  }

  lemma {:induction false} TrimRightAndLower(s: string)
    ensures TrimRight(ToLower(s)) == ToLower(TrimRight(s))
  {
    hide IsSpace, LowerChar;
    if s == "" {
    } else {
      assert ToLower(s)[..|s| - 1] == ToLower(s[..|s| - 1]);
      TrimRightAndLower(s[..|s| - 1]);
    }
  }

  /** The panel trims and lower-cases in either order; both give the same text. */
  lemma TrimAndLowerCommute(s: string)
    ensures TrimSpace(ToLower(s)) == ToLower(TrimSpace(s))
  {
    TrimLeftAndLower(s);
    TrimRightAndLower(TrimLeft(s));
  }

  // ---------- what the helpers come to ----------

  /** White space by code point: the Unicode property of that name. */
  lemma SpacesByCodePoint(c: char)
    ensures var n := c as int;
            IsSpace(c) <==> 0x09 <= n <= 0x0D || n in {0x20, 0x85, 0xA0, 0x1680} || 0x2000 <= n <= 0x200A
                            || n in {0x2028, 0x2029, 0x202F, 0x205F, 0x3000}
  {
  }

  const CAPITALS := "ABCDEFGHIJKLMNOPQRSTUVWXYZ"
  const SMALLS := "abcdefghijklmnopqrstuvwxyz"

  /** Each capital becomes its own small letter and nothing else changes. */
  lemma LettersLowerInPlace(c: char)
    ensures c !in CAPITALS ==> LowerChar(c) == c
    ensures forall i | 0 <= i < 26 :: LowerChar(CAPITALS[i]) == SMALLS[i]
  {
    forall i | 0 <= i < 26 ensures CAPITALS[i] as int == 65 + i && SMALLS[i] as int == 97 + i {
    }
    if 'A' <= c <= 'Z' { assert CAPITALS[c as int - 65] == c; }
  }

  lemma {:induction false} TrimLeftTakes(l: string, m: string)
    requires AllSpace(l) && (m != "" ==> !IsSpace(m[0]))
    ensures TrimLeft(l + m) == m
  {
    hide IsSpace;
    if l == "" {
      assert l + m == m;
    } else {
      assert (l + m)[1..] == l[1..] + m;
      TrimLeftTakes(l[1..], m);
    }
  }

  lemma {:induction false} TrimRightTakes(m: string, t: string)
    requires AllSpace(t) && (m != "" ==> !IsSpace(m[|m| - 1]))
    ensures TrimRight(m + t) == m
  {
    hide IsSpace;
    if t == "" {
      assert m + t == m;
    } else {
      assert (m + t)[..|m + t| - 1] == m + t[..|t| - 1];
      TrimRightTakes(m, t[..|t| - 1]);
    }
  }

  /** Trimming takes all the white space around a text, and only that. */
  lemma TrimSpaceTakes(l: string, m: string, t: string)
    requires AllSpace(l) && AllSpace(t) && Tidy(m)
    ensures TrimSpace(l + m + t) == m
  {
    hide IsSpace, TrimLeft, TrimRight;
    if m == "" {
      assert l + m + t == (l + t) + "";
      TrimLeftTakes(l + t, "");
      TrimRightTakes("", "");
      assert (l + t) + "" == l + m + t && "" + "" == "";
    } else {
      assert l + m + t == l + (m + t);
      TrimLeftTakes(l, m + t);
      TrimRightTakes(m, t);
    }
  }
}
