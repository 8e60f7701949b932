/**
 Parentheses in metric queries (`src/query/prometheus.rs`): finding the partner of an
 opening parenthesis, and removing the ones around a whole expression.
 */
module Parens {
  import opened BasicTypes
  import opened Text

  /** The depth after reading a text from depth `d`, unless it falls to 0 on the way. */
  function DepthAfter(d: nat, s: string): Option<nat>
    decreases |s|
  {
    if s == [] then Some(d)
    else if s[0] == '(' then DepthAfter(d + 1, s[1..])
    else if s[0] == ')' then (if d <= 1 then None else DepthAfter(d - 1, s[1..]))
    else DepthAfter(d, s[1..])
  }

  /** Every parenthesis in the text has its partner in the text. */
  predicate Balanced(s: string) {
    DepthAfter(1, s) == Some(1)
  }

  /** Where a text read from depth `d` falls to depth 0. */
  function CloseFrom(d: nat, s: string): (r: Option<nat>)
    requires d > 0
    ensures r.Some? ==> r.value < |s|
    decreases |s|
  {
    if s == [] then None
    else if s[0] == ')' && d == 1 then Some(0)
    else
      var depth := if s[0] == '(' then d + 1 else if s[0] == ')' then d - 1 else d;
      match CloseFrom(depth, s[1..])
      case None => None
      case Some(i) => Some(i + 1)
  }

  function Parenthesized(raw: string): (r: Option<(string, string)>)
    ensures r.Some? ==> |r.value.0| + 2 <= |raw|
  {
    if raw == [] || raw[0] != '(' then None
    else
      match CloseFrom(1, raw[1..])
      case None => None
      case Some(idx) => Some((Trim(raw[1..][..idx]), Trim(raw[1..][idx + 1..])))
  }

  method ParenthesizedWithSuffix(text: string) returns (r: Option<(string, string)>)
    ensures r == Parenthesized(text)
  {
    if text == [] || text[0] != '(' {
      return None;
    }
    var raw := text[1..];
    var depth := 1;
    for idx := 0 to |raw|
      invariant depth > 0
      invariant CloseFrom(1, raw) ==
        match CloseFrom(depth, raw[idx..])
        case None => None
        case Some(i) => Some(idx + i)
    {
      assert raw[idx..][0] == raw[idx] && raw[idx..][1..] == raw[idx + 1..];
      if raw[idx] == '(' {
        depth := depth + 1;
      } else if raw[idx] == ')' {
        depth := depth - 1;
        if depth == 0 {
          return Some((Trim(raw[..idx]), Trim(raw[idx + 1..])));
        }
      }
    }
    return None;
  }

  // ----- Partners -----

  lemma {:induction false} DepthConcat(d: nat, a: string, b: string)
    ensures DepthAfter(d, a + b) == if DepthAfter(d, a).None? then None else DepthAfter(DepthAfter(d, a).value, b)
    decreases |a|
  {
    if a == [] {
      assert a + b == b;
    } else {
      assert (a + b)[1..] == a[1..] + b;
      var depth := if a[0] == '(' then d + 1 else if a[0] == ')' then d - 1 else d;
      if depth >= 0 {
        DepthConcat(depth, a[1..], b);
      }
    }
  }

  lemma {:induction false} DepthShift(d: nat, k: nat, s: string)
    requires DepthAfter(d, s).Some? && d > 0
    ensures DepthAfter(d + k, s) == Some(DepthAfter(d, s).value + k)
    decreases |s|
  {
    if s != [] {
      DepthShift(if s[0] == '(' then d + 1 else if s[0] == ')' then d - 1 else d, k, s[1..]);
    }
  }

  lemma {:induction false} NoParensBalanced(d: nat, s: string)
    requires '(' !in s && ')' !in s
    ensures DepthAfter(d, s) == Some(d)
  {
    if s != [] {
      assert s[0] in s && forall c | c in s[1..] :: c in s;
      NoParensBalanced(d, s[1..]);
    }
  }

  lemma BalancedConcat(a: string, b: string)
    requires Balanced(a) && Balanced(b)
    ensures Balanced(a + b)
  {
    DepthConcat(1, a, b);
  }

  lemma BalancedWrapped(e: string)
    requires Balanced(e)
    ensures Balanced("(" + e + ")")
  {
    DepthShift(1, 1, e);
    DepthConcat(2, e, ")");
    assert "(" + e + ")" == "(" + (e + ")") && ("(" + (e + ")"))[1..] == e + ")";
    assert ")"[1..] == [];
  }

  /** The parentheses of a text, which decide whether it is balanced. */
  function OnlyParens(s: string): string {
    if s == [] then [] else (if s[0] == '(' || s[0] == ')' then [s[0]] else []) + OnlyParens(s[1..])
  }

  lemma {:induction false} OnlyParensConcat(a: string, b: string)
    ensures OnlyParens(a + b) == OnlyParens(a) + OnlyParens(b)
  {
    if a == [] {
      assert a + b == b;
    } else {
      assert (a + b)[1..] == a[1..] + b;
      OnlyParensConcat(a[1..], b);
    }
  }

  lemma {:induction false} NoneLeft(s: string)
    requires '(' !in s && ')' !in s
    ensures OnlyParens(s) == []
  {
    if s != [] {
      assert s[0] in s && forall c | c in s[1..] :: c in s;
      NoneLeft(s[1..]);
    }
  }

  lemma {:induction false} ParensDecideDepth(d: nat, s: string)
    ensures DepthAfter(d, OnlyParens(s)) == DepthAfter(d, s)
    decreases |s|
  {
    if s != [] {
      var depth := if s[0] == '(' then d + 1 else if s[0] == ')' then d - 1 else d;
      if s[0] == '(' || s[0] == ')' {
        assert OnlyParens(s)[0] == s[0] && OnlyParens(s)[1..] == OnlyParens(s[1..]);
      } else {
        assert OnlyParens(s) == OnlyParens(s[1..]);
      }
      if depth >= 0 {
        ParensDecideDepth(depth, s[1..]);
      }
    }
  }

  lemma SameParensSameBalance(a: string, b: string)
    requires OnlyParens(a) == OnlyParens(b)
    ensures Balanced(a) <==> Balanced(b)
  {
    ParensDecideDepth(1, a);
    ParensDecideDepth(1, b);
  }

  /** The closing position splits off a text that brings the depth back to 1. */
  lemma {:induction false} CloseSplits(d: nat, s: string)
    requires d > 0 && CloseFrom(d, s).Some?
    ensures var i := CloseFrom(d, s).value; s[i] == ')' && DepthAfter(d, s[..i]) == Some(1)
    decreases |s|
  {
    if !(s[0] == ')' && d == 1) {
      CloseSplits(if s[0] == '(' then d + 1 else if s[0] == ')' then d - 1 else d, s[1..]);
      var i := CloseFrom(d, s).value;
      assert s[..i][1..] == s[1..][..i - 1];
    }
  }

  lemma {:induction false} CloseAfter(d: nat, s: string, rest: string)
    requires d > 0 && DepthAfter(d, s) == Some(1)
    ensures CloseFrom(d, s + ")" + rest) == Some(|s|)
    decreases |s|
  {
    var t := s + ")" + rest;
    if s != [] {
      assert t[1..] == s[1..] + ")" + rest;
      CloseAfter(if s[0] == '(' then d + 1 else if s[0] == ')' then d - 1 else d, s[1..], rest);
    }
  }

  /** The text is a parenthesized balanced text followed by a suffix. */
  ghost predicate Splits(raw: string, e: string, suffix: string) {
    raw == "(" + e + ")" + suffix && Balanced(e)
  }

  lemma CutAtPartner(e: string, suffix: string)
    requires Balanced(e)
    ensures Parenthesized("(" + e + ")" + suffix) == Some((Trim(e), Trim(suffix)))
  {
    hide CloseFrom, DepthAfter, Trim;
    var rest := e + ")" + suffix;
    assert "(" + e + ")" + suffix == "(" + rest && ("(" + rest)[1..] == rest;
    CloseAfter(1, e, suffix);
    assert rest[..|e|] == e && rest[|e| + 1..] == suffix;
  }

  /** Such a text is cut there and nowhere else; any other is refused. */
  lemma ParenthesizedExactlyWhen(raw: string)
    ensures forall e, suffix | Splits(raw, e, suffix) :: Parenthesized(raw) == Some((Trim(e), Trim(suffix)))
    ensures Parenthesized(raw).Some? ==> exists e, suffix :: Splits(raw, e, suffix)
  {
    forall e, suffix | Splits(raw, e, suffix) ensures Parenthesized(raw) == Some((Trim(e), Trim(suffix))) {
      CutAtPartner(e, suffix);
    }
    if Parenthesized(raw).Some? {
      SplitExists(raw);
    }
  }

  lemma SplitExists(raw: string)
    requires Parenthesized(raw).Some?
    ensures exists e, suffix :: Splits(raw, e, suffix)
  {
    hide CloseFrom, DepthAfter, Trim;
    var rest := raw[1..];
    CloseSplits(1, rest);
    var i := CloseFrom(1, rest).value;
    assert raw == "(" + rest[..i] + ")" + rest[i + 1..];
    assert Splits(raw, rest[..i], rest[i + 1..]);
  }

  // ----- Outer parentheses -----

  function StripFrom(current: string): string
    decreases |current|
  {
    match Parenthesized(current)
    case None => current
    case Some((inner, suffix)) => if suffix == [] then StripFrom(inner) else current
  }

  function Stripped(raw: string): string {
    StripFrom(Trim(raw))
  }

  method StripOuterParens(raw: string) returns (current: string)
    ensures current == Stripped(raw)
  {
    current := Trim(raw);
    while true
      invariant Stripped(raw) == StripFrom(current)
      decreases |current|
    {
      var cut := ParenthesizedWithSuffix(current);
      if cut.None? || cut.value.1 != [] {
        return;
      }
      current := cut.value.0;
    }
  }

  predicate HasOuterParens(s: string) {
    var cut := Parenthesized(s);
    cut.Some? && cut.value.1 == []
  }

  lemma {:induction false} StripFromDone(s: string)
    requires Trimmed(s)
    ensures Trimmed(StripFrom(s)) && !HasOuterParens(StripFrom(s))
    decreases |s|
  {
    if HasOuterParens(s) {
      StripFromDone(Parenthesized(s).value.0);
    }
  }

  /** Stripping leaves no outer parentheses, so doing it again changes nothing. */
  lemma StrippingIsIdempotent(raw: string)
    ensures !HasOuterParens(Stripped(raw))
    ensures Stripped(Stripped(raw)) == Stripped(raw)
  {
    StripFromDone(Trim(raw));
    TrimIdentity(Stripped(raw));
  }

  function Wrapped(layers: nat, e: string): string {
    if layers == 0 then e else "(" + Wrapped(layers - 1, e) + ")"
  }

  lemma StripOne(e: string)
    requires Balanced(e)
    ensures Stripped("(" + e + ")") == Stripped(e)
  {
    hide Parenthesized, Balanced;
    var raw := "(" + e + ")";
    TrimIdentity(raw);
    CutAtPartner(e, []);
    assert raw == raw + [];
  }

  /** Any number of parentheses around a balanced expression is redundant. */
  lemma {:induction false} WrappingIsRedundant(layers: nat, e: string)
    requires Balanced(e)
    ensures Balanced(Wrapped(layers, e))
    ensures Stripped(Wrapped(layers, e)) == Stripped(e)
  {
    if layers > 0 {
      WrappingIsRedundant(layers - 1, e);
      BalancedWrapped(Wrapped(layers - 1, e));
      StripOne(Wrapped(layers - 1, e));
    }
  }

  /** Around a text that is not balanced the innermost pair is never removed. */
  lemma {:induction false} StripKeepsOne(layers: nat, e: string) returns (left: nat)
    requires layers > 0 && !Balanced(e) && Trimmed(e)
    ensures left > 0 && Stripped(Trim(Wrapped(layers, e))) == Wrapped(left, e)
  {
    hide Balanced, Parenthesized, Trim;
    var raw, inner := Wrapped(layers, e), Wrapped(layers - 1, e);
    TrimIdentity(raw);
    left := layers;
    if HasOuterParens(raw) {
      OuterIsLast(inner);
      if layers > 1 {
        TrimIdentity(inner);
        left := StripKeepsOne(layers - 1, e);
      }
    }
  }

  /** Parentheses are outer ones only around a balanced text. */
  lemma OuterIsLast(inner: string)
    requires HasOuterParens("(" + inner + ")")
    ensures Balanced(inner) && Parenthesized("(" + inner + ")").value.0 == Trim(inner)
  {
    var raw, rest := "(" + inner + ")", inner + ")";
    assert raw[1..] == rest;
    CloseSplits(1, rest);
    var i := CloseFrom(1, rest).value;
    hide CloseFrom, DepthAfter;
    if i < |inner| {
      NotAllSpace(rest[i + 1..]);
      assert false;
    }
    assert rest[..i] == inner;
  }

  lemma NotAllSpace(s: string)
    requires s != [] && !IsSpace(s[|s| - 1])
    ensures Trim(s) != []
  {
    LastStays(s);
  }

  lemma {:induction false} LastStays(s: string)
    requires s != [] && !IsSpace(s[|s| - 1])
    ensures TrimStart(s) != [] && TrimStart(s)[|TrimStart(s)| - 1] == s[|s| - 1]
  {
    if IsSpace(s[0]) {
      LastStays(s[1..]);
    }
  }

  /** A text either closes its parenthesis or leaves it open at some depth. */
  lemma {:induction false} CloseConcat(d: nat, a: string, b: string)
    requires d > 0
    ensures DepthAfter(d, a).None? ==>
      CloseFrom(d, a + b).Some? && CloseFrom(d, a + b).value < |a| && a[CloseFrom(d, a + b).value] == ')'
    ensures DepthAfter(d, a).Some? ==>
      && DepthAfter(d, a).value > 0
      && (CloseFrom(d, a + b).Some? <==> CloseFrom(DepthAfter(d, a).value, b).Some?)
    decreases |a|
  {
    if a == [] {
      assert a + b == b;
    } else {
      assert (a + b)[1..] == a[1..] + b;
      if !(a[0] == ')' && d == 1) {
        CloseConcat(if a[0] == '(' then d + 1 else if a[0] == ')' then d - 1 else d, a[1..], b);
      }
    }
  }

  /** A parenthesis before a text that is not balanced closes inside the text or nowhere. */
  lemma ClosesInside(p: string, suffix: string)
    requires !Balanced(p) && Balanced(suffix)
    ensures var i := CloseFrom(1, p + ")" + suffix); i.Some? ==> i.value < |p| && p[i.value] == ')'
  {
    CloseConcat(1, p, ")" + suffix);
    assert p + ")" + suffix == p + (")" + suffix);
    hide CloseFrom, DepthAfter;
    var depth := DepthAfter(1, p);
    if depth.Some? {
      assert depth.value > 1;
      StaysOpen(depth.value, suffix);
    }
  }

  lemma StaysOpen(d: nat, suffix: string)
    requires d > 1 && Balanced(suffix)
    ensures CloseFrom(d, ")" + suffix).None?
  {
    assert (")" + suffix)[1..] == suffix;
    DepthShift(1, d - 2, suffix);
    CloseConcat(d - 1, suffix, []);
    assert suffix + [] == suffix;
  }
}
