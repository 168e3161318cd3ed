/**
 * The few pieces of JavaScript behaviour the core relies on: truthiness of a decoded JSON
 * value, the `\s` / `trim()` whitespace class, `split("\n")` and string concatenation.
 */
module Js {

  /** The kinds of value a field of a parsed JSON request body can hold (absent included). */
  datatype Value = Undefined | Null | Bool(b: bool) | Num(n: real) | Str(s: string) | ObjectOrArray

  /** What `!v` is false for: everything but undefined, null, false, 0 and "". */
  predicate Truthy(v: Value): (b: bool)
    ensures b <==> v !in {Undefined, Null, Bool(false), Num(0.0), Str("")}
  {
    match v
    case Undefined => false
    case Null => false
    case Bool(b) => b
    case Num(n) => n != 0.0
    case Str(s) => s != ""
    case ObjectOrArray => true
  }

  /** WhiteSpace and LineTerminator code points of ECMAScript: the class `\s` matches
      and `String.prototype.trim` removes. */
  predicate IsSpace(c: char) {
    c == '\t' || c == '\n' || c == '\U{000B}' || c == '\U{000C}' || c == '\r' || c == ' ' ||
    c == '\U{00A0}' || c == '\U{1680}' || ('\U{2000}' <= c <= '\U{200A}') ||
    c == '\U{2028}' || c == '\U{2029}' || c == '\U{202F}' || c == '\U{205F}' ||
    c == '\U{3000}' || c == '\U{FEFF}'
  }

  /** `!s.trim()`: the string is empty once its surrounding whitespace is removed. */
  predicate IsBlank(s: string) {
    forall i :: 0 <= i < |s| ==> IsSpace(s[i])
  }

  /** `!s.trim()` holds exactly when dropping the leading whitespace leaves nothing. */
  lemma BlankTrim(s: string)
    ensures IsBlank(s) <==> DropSpaces(s) == ""
  {
    var r := DropSpaces(s);
    var k := |s| - |r|;
    if r == "" {
      assert s[..k] == s;
    } else {
      assert r[0] == s[k] && !IsSpace(s[k]);
    }
  }

  /** Drops the longest prefix of whitespace: what the `\s*` of a regular expression consumes. */
  function DropSpaces(s: string): (r: string)
    ensures |r| <= |s| && r == s[|s| - |r|..]
    ensures IsBlank(s[..|s| - |r|])
    ensures r == [] || !IsSpace(r[0])
  {
    if |s| > 0 && IsSpace(s[0]) then
      var r := DropSpaces(s[1..]);
      var k := |s| - |r|;
      assert r == s[k..] by { assert s[1..][k - 1..] == s[k..]; }
      assert IsBlank(s[..k]) by {
        forall i | 0 <= i < k ensures IsSpace(s[..k][i]) {
          if i > 0 { assert s[..k][i] == s[1..][..k - 1][i - 1]; }
        }
      }
      r
    else s
  }

  /** The concatenation of a sequence of strings, in order. */
  function Concat(ss: seq<string>): string {
    if ss == [] then "" else ss[0] + Concat(ss[1..])
  }

  /** Associativity of string concatenation, as a lemma to instantiate where a proof regroups a concatenation. */
  lemma AppendAssoc(a: string, b: string, c: string)
    ensures (a + b) + c == a + (b + c)
  {
  }

  lemma {:induction false} ConcatAppend(a: seq<string>, b: seq<string>)
    ensures Concat(a + b) == Concat(a) + Concat(b)
  {
    if a == [] {
      assert a + b == b;
    } else {
      assert (a + b)[1..] == a[1..] + b;
      ConcatAppend(a[1..], b);
    }
  }

  /** `s.split("\n")`: the pieces between newlines, always at least one. */
  function SplitLines(s: string): (r: seq<string>)
    ensures |r| >= 1
    ensures forall i :: 0 <= i < |r| ==> '\n' !in r[i]
    decreases |s|
  {
    if |s| == 0 then [""] else Cons(s[0], SplitLines(s[1..]))
  }

  /** The pieces of `[c] + t`, from the pieces `r` of `t`: a newline opens a piece, any other character joins the first. */
  function Cons(c: char, r: seq<string>): seq<string>
    requires |r| >= 1
  {
    if c == '\n' then [""] + r else [[c] + r[0]] + r[1..]
  }

  /** `lines.join("\n")`, the inverse of SplitLines. */
  function JoinLines(ps: seq<string>): string
    requires |ps| >= 1
  {
    if |ps| == 1 then ps[0] else ps[0] + "\n" + JoinLines(ps[1..])
  }

  function Init<T>(s: seq<T>): seq<T>
    requires |s| >= 1
  {
    s[..|s| - 1]
  }

  function Last<T>(s: seq<T>): T
    requires |s| >= 1
  {
    s[|s| - 1]
  }

  /** Splitting and re-joining gives back the original string. */
  lemma {:induction false} JoinSplit(s: string)
    ensures JoinLines(SplitLines(s)) == s
    decreases |s|
  {
    if |s| > 0 {
      var rest := SplitLines(s[1..]);
      JoinSplit(s[1..]);
      if s[0] == '\n' {
        assert s == [s[0]] + s[1..];
      } else {
        var r := SplitLines(s);
        assert r[1..] == rest[1..];
        if |rest| == 1 {
          assert s == [s[0]] + rest[0];
        } else {
          assert JoinLines(r) == [s[0]] + rest[0] + "\n" + JoinLines(rest[1..]);
          assert s == [s[0]] + s[1..];
        }
      }
    }
  }

  /** A string without newline splits into itself. */
  lemma {:induction false} SplitNoNewline(a: string)
    requires '\n' !in a
    ensures SplitLines(a) == [a]
    decreases |a|
  {
    if |a| > 0 {
      assert '\n' !in a[1..] by {
        forall i | 0 <= i < |a[1..]| ensures a[1..][i] != '\n' { assert a[1..][i] == a[i + 1]; }
      }
      SplitNoNewline(a[1..]);
      assert [a[0]] + a[1..] == a;
    }
  }

  /** A newline-free prefix followed by a newline becomes exactly one piece. */
  lemma {:induction false} SplitAfterLine(a: string, b: string)
    requires '\n' !in a
    ensures SplitLines(a + "\n" + b) == [a] + SplitLines(b)
    decreases |a|
  {
    if |a| == 0 {
      assert a + "\n" + b == "\n" + b;
      assert ("\n" + b)[1..] == b;
    } else {
      assert '\n' !in a[1..] by {
        forall i | 0 <= i < |a[1..]| ensures a[1..][i] != '\n' { assert a[1..][i] == a[i + 1]; }
      }
      SplitAfterLine(a[1..], b);
      assert (a + "\n" + b)[1..] == a[1..] + "\n" + b;
      assert [a[0]] + a[1..] == a;
    }
  }

  /** The pieces of newline-free strings joined by newlines are recovered by splitting. */
  lemma {:induction false} SplitJoin(ps: seq<string>)
    requires |ps| >= 1
    requires forall i :: 0 <= i < |ps| ==> '\n' !in ps[i]
    ensures SplitLines(JoinLines(ps)) == ps
    decreases |ps|
  {
    if |ps| == 1 {
      SplitNoNewline(ps[0]);
    } else {
      SplitJoin(ps[1..]);
      SplitAfterLine(ps[0], JoinLines(ps[1..]));
      assert [ps[0]] + ps[1..] == ps;
    }
  }

  /** One step of SplitLines, for a string given as its first character and the rest. */
  lemma SplitCons(c: char, t: string)
    ensures SplitLines([c] + t) == Cons(c, SplitLines(t))
  {
    assert ([c] + t)[1..] == t;
  }

  /** How one step of splitting meets complete pieces `Init(r)` followed by new pieces `t`. */
  lemma ConsAppend(c: char, r: seq<string>, t: seq<string>)
    requires |r| >= 1 && |t| >= 1
    ensures Cons(c, Init(r) + t) == Init(Cons(c, r)) + (if c == '\n' || |r| > 1 then t else Cons(c, t))
    ensures Last(Cons(c, r)) == if c == '\n' || |r| > 1 then Last(r) else [c] + r[0]
  {
    var i := Init(r);
    if c == '\n' {
      assert Init([""] + r) == [""] + i;
      assert [""] + (i + t) == [""] + i + t;
    } else if |r| > 1 {
      var h := [[c] + r[0]];
      assert (i + t)[0] == r[0];
      assert (i + t)[1..] == i[1..] + t;
      assert Init(h + r[1..]) == h + i[1..];
      assert h + (i[1..] + t) == h + i[1..] + t;
    } else {
      assert i == [] && i + t == t;
      assert Init([[c] + r[0]]) == [];
    }
  }

  /** One step of SplitLines on a non-empty string. */
  lemma SplitStep(s: string)
    requires |s| > 0
    ensures SplitLines(s) == Cons(s[0], SplitLines(s[1..]))
  {
  }

  /** The property SplitAppend states, for one pair of strings. */
  predicate SplitsAppended(a: string, b: string) {
    SplitLines(a + b) == Init(SplitLines(a)) + SplitLines(Last(SplitLines(a)) + b)
  }

  /** SplitAppend for `a` from SplitAppend for its tail, when the last piece is carried over. */
  lemma SplitAppendCarried(a: string, b: string)
    requires |a| > 0 && (a[0] == '\n' || |SplitLines(a[1..])| > 1)
    requires SplitsAppended(a[1..], b)
    ensures SplitsAppended(a, b)
  {
    var sa' := SplitLines(a[1..]);
    var t := SplitLines(Last(sa') + b);
    assert (a + b)[0] == a[0] && (a + b)[1..] == a[1..] + b;
    SplitStep(a + b);
    SplitStep(a);
    ConsAppend(a[0], sa', t);
  }

  /** SplitAppend for `a` from SplitAppend for its tail, when `a` is one piece. */
  lemma SplitAppendJoined(a: string, b: string)
    requires |a| > 0 && a[0] != '\n' && |SplitLines(a[1..])| == 1
    requires SplitsAppended(a[1..], b)
    ensures SplitsAppended(a, b)
  {
    var c, a' := a[0], a[1..];
    var sa' := SplitLines(a');
    var q := sa'[0];
    var t := SplitLines(q + b);
    assert Init(sa') == [] && Last(sa') == q;
    assert SplitLines(a' + b) == t by {
      assert SplitLines(a' + b) == [] + t;
    }
    assert (a + b)[0] == c && (a + b)[1..] == a' + b;
    SplitStep(a + b);
    assert SplitLines(a + b) == Cons(c, t);
    SplitStep(a);
    var p := [c] + q;
    assert SplitLines(a) == [p];
    AppendAssoc([c], q, b);
    SplitCons(c, q + b);
    assert SplitLines(p + b) == Cons(c, t);
  }

  /**
   * Appending text to a string only changes its last piece: the complete lines stay,
   * and the unterminated tail is split again together with the new text.
   */
  lemma {:induction false} SplitAppend(a: string, b: string)
    ensures SplitLines(a + b) == Init(SplitLines(a)) + SplitLines(Last(SplitLines(a)) + b)
    decreases |a|
  {
    if |a| == 0 {
      assert a + b == b;
    } else {
      SplitAppend(a[1..], b);
      if a[0] == '\n' || |SplitLines(a[1..])| > 1 {
        SplitAppendCarried(a, b);
      } else {
        SplitAppendJoined(a, b);
      }
    }
  }
}
