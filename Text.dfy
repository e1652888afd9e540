/**
 * The .NET string primitives the builder relies on: `char.IsWhiteSpace`,
 * `string.IsNullOrWhiteSpace`, `string.Trim`, ordinal case-insensitive
 * comparison and the single-character `Replace` used for SQL quoting.
 */
module Text {
  import opened Wrappers

  /** `char.IsWhiteSpace`: the characters of the Unicode White_Space property. */
  predicate IsWhiteSpace(c: char)
  {
    ('\t' <= c <= '\r') || c == ' ' || c == '\U{85}' || c == '\U{A0}' || c == '\U{1680}'
    || ('\U{2000}' <= c <= '\U{200A}') || c == '\U{2028}' || c == '\U{2029}'
    || c == '\U{202F}' || c == '\U{205F}' || c == '\U{3000}'
  }

  /** `string.IsNullOrWhiteSpace` on a string that is present. */
  predicate IsBlank(s: string)
  {
    forall i :: 0 <= i < |s| ==> IsWhiteSpace(s[i])
  }

  /** `string.IsNullOrWhiteSpace` on a nullable string. */
  predicate IsNullOrWhiteSpace(s: Option<string>)
  {
    s.None? || IsBlank(s.value)
  }

  function TrimStart(s: string): string
  {
    if s != [] && IsWhiteSpace(s[0]) then TrimStart(s[1..]) else s
  }

  /** `TrimStart` drops a blank prefix and nothing more: what is left is a suffix that starts with non-white space. */
  lemma {:induction false} TrimStartSpec(s: string)
    ensures |TrimStart(s)| <= |s| && TrimStart(s) == s[|s| - |TrimStart(s)|..]
    ensures IsBlank(s[..|s| - |TrimStart(s)|])
    ensures TrimStart(s) == [] || !IsWhiteSpace(TrimStart(s)[0])
  {
    if s != [] && IsWhiteSpace(s[0]) {
      TrimStartSpec(s[1..]);
      var r := TrimStart(s);
      assert s[1..][|s| - 1 - |r|..] == s[|s| - |r|..];
      var p := s[..|s| - |r|];
      assert p[1..] == s[1..][..|s| - 1 - |r|];
      assert forall i :: 1 <= i < |p| ==> p[i] == p[1..][i - 1];
    }
  }

  function TrimEnd(s: string): string
  {
    if s != [] && IsWhiteSpace(s[|s| - 1]) then TrimEnd(s[..|s| - 1]) else s
  }

  /** `TrimEnd` drops a blank suffix and nothing more: what is left is a prefix that ends with non-white space. */
  lemma {:induction false} TrimEndSpec(s: string)
    ensures |TrimEnd(s)| <= |s| && TrimEnd(s) == s[..|TrimEnd(s)|]
    ensures IsBlank(s[|TrimEnd(s)|..])
    ensures TrimEnd(s) == [] || !IsWhiteSpace(TrimEnd(s)[|TrimEnd(s)| - 1])
  {
    if s != [] && IsWhiteSpace(s[|s| - 1]) {
      TrimEndSpec(s[..|s| - 1]);
      var r := TrimEnd(s);
      assert s[..|s| - 1][..|r|] == s[..|r|];
      var q := s[|r|..];
      assert q[..|q| - 1] == s[..|s| - 1][|r|..];
      assert forall i :: 0 <= i < |q| - 1 ==> q[i] == q[..|q| - 1][i];
    }
  }

  /** `string.Trim()`: the string without leading and trailing white space. */
  function Trim(s: string): string
  {
    TrimEnd(TrimStart(s))
  }

  /** A string is blank exactly when both of its parts, split at `k`, are. */
  lemma BlankSplit(s: string, k: nat)
    requires k <= |s|
    ensures IsBlank(s) <==> IsBlank(s[..k]) && IsBlank(s[k..])
  {
    if IsBlank(s[..k]) && IsBlank(s[k..]) {
      forall i | 0 <= i < |s| ensures IsWhiteSpace(s[i]) {
        if i < k {
          assert s[i] == s[..k][i];
        } else {
          assert s[i] == s[k..][i - k];
        }
      }
    }
  }

  /** `Trim` yields the empty string exactly on blank strings, and otherwise starts and ends with non-white space. */
  lemma TrimmedEnds(s: string)
    ensures var t := Trim(s);
      (t == [] <==> IsBlank(s)) && (t != [] ==> !IsWhiteSpace(t[0]) && !IsWhiteSpace(t[|t| - 1]))
  {
    var u := TrimStart(s);
    var t := TrimEnd(u);
    TrimStartSpec(s);
    TrimEndSpec(u);
    BlankSplit(s, |s| - |u|);
    if |t| == 0 {
      BlankSplit(u, 0);
    } else {
      assert t[0] == u[0];
      assert !IsBlank(u);
    }
  }

  function UpperAscii(c: char): char
  {
    if 'a' <= c <= 'z' then (c as int - 32) as char else c
  }

  function LowerAscii(c: char): char
  {
    if 'A' <= c <= 'Z' then (c as int + 32) as char else c
  }

  function ToLowerAscii(s: string): (r: string)
    ensures |r| == |s| && forall i :: 0 <= i < |s| ==> r[i] == LowerAscii(s[i])
  {
    seq(|s|, i requires 0 <= i < |s| => LowerAscii(s[i]))
  }

  function ToUpperAscii(s: string): (r: string)
    ensures |r| == |s| && forall i :: 0 <= i < |s| ==> r[i] == UpperAscii(s[i])
  {
    seq(|s|, i requires 0 <= i < |s| => UpperAscii(s[i]))
  }

  /** `string.Equals(a, b, StringComparison.OrdinalIgnoreCase)` for ASCII letters. */
  predicate EqualsIgnoreCase(a: string, b: string)
  {
    |a| == |b| && forall i :: 0 <= i < |a| ==> UpperAscii(a[i]) == UpperAscii(b[i])
  }

  /** The same comparison when either side may be null: null equals only null. */
  predicate NullableEqualsIgnoreCase(a: Option<string>, b: Option<string>)
  {
    (a.None? && b.None?) || (a.Some? && b.Some? && EqualsIgnoreCase(a.value, b.value))
  }

  function Count(s: string, c: char): (n: nat)
    ensures n <= |s|
  {
    if s == [] then 0 else (if s[0] == c then 1 else 0) + Count(s[1..], c)
  }

  /** `s.Replace(c, cc)`: every occurrence of `c` written twice. */
  function Double(s: string, c: char): string
  {
    if s == [] then [] else (if s[0] == c then [c, c] else [s[0]]) + Double(s[1..], c)
  }

  /**
   * The reading of a doubled string: each `cc` stands for one `c`; a `c`
   * that is not followed by another is not a doubled string.
   */
  function Undouble(t: string, c: char): Option<string>
  {
    if t == [] then Some([])
    else if t[0] != c then
      match Undouble(t[1..], c)
      case Some(rest) => Some([t[0]] + rest)
      case None => None
    else if |t| >= 2 && t[1] == c then
      match Undouble(t[2..], c)
      case Some(rest) => Some([c] + rest)
      case None => None
    else None
  }

  lemma {:induction false} DoubleLength(s: string, c: char)
    ensures |Double(s, c)| == |s| + Count(s, c)
  {
    if s != [] {
      DoubleLength(s[1..], c);
    }
  }

  /** Un-doubling what `Double` produced gives back the original string. */
  lemma {:induction false} UndoubleDouble(s: string, c: char)
    ensures Undouble(Double(s, c), c) == Some(s)
  {
    if s != [] {
      UndoubleDouble(s[1..], c);
      var t := Double(s, c);
      var head := if s[0] == c then [c, c] else [s[0]];
      assert t == head + Double(s[1..], c);
      if s[0] == c {
        assert t[2..] == Double(s[1..], c);
      } else {
        assert t[0] == s[0] && t[1..] == Double(s[1..], c);
      }
      assert s == [s[0]] + s[1..];
    }
  }

  /** Only doubled strings un-double: every `c` in `t` belongs to a doubled pair. */
  lemma {:induction false} DoubleUndouble(t: string, c: char, s: string)
    requires Undouble(t, c) == Some(s)
    ensures Double(s, c) == t
  {
    if t != [] {
      if t[0] != c {
        var rest := Undouble(t[1..], c).value;
        DoubleUndouble(t[1..], c, rest);
        assert s == [t[0]] + rest;
        assert s[1..] == rest;
        assert t == [t[0]] + t[1..];
      } else {
        var rest := Undouble(t[2..], c).value;
        DoubleUndouble(t[2..], c, rest);
        assert s == [c] + rest;
        assert s[1..] == rest;
        assert t == [c, c] + t[2..];
      }
    }
  }
}
