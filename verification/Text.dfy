/**
 String operations of the standard library that the parsers are written in, with the
 facts about them the proofs use. A string is a sequence of characters.
 */
module Text {
  import opened BasicTypes

  /** The Unicode White_Space property. */
  predicate IsSpace(c: char) {
    var n := c as int;
    || 0x09 <= n <= 0x0D || n == 0x20 || n == 0x85 || n == 0xA0 || n == 0x1680
    || 0x2000 <= n <= 0x200A || n == 0x2028 || n == 0x2029 || n == 0x202F || n == 0x205F || n == 0x3000
  }

  const WHITE_SPACE: set<int> := {
    0x09, 0x0A, 0x0B, 0x0C, 0x0D, 0x20, 0x85, 0xA0, 0x1680, 0x2000, 0x2001, 0x2002, 0x2003, 0x2004, 0x2005,
    0x2006, 0x2007, 0x2008, 0x2009, 0x200A, 0x2028, 0x2029, 0x202F, 0x205F, 0x3000}

  lemma SpacesAreListed(c: char)
    ensures IsSpace(c) <==> c as int in WHITE_SPACE
  {
  }

  function TrimStart(s: string): (t: string)
    ensures t == [] || !IsSpace(t[0])
    ensures |t| <= |s|
  {
    if s != [] && IsSpace(s[0]) then TrimStart(s[1..]) else s
  }

  function TrimEnd(s: string): (t: string)
    ensures t == [] || !IsSpace(t[|t| - 1])
    ensures t <= s
  {
    if s != [] && IsSpace(s[|s| - 1]) then TrimEnd(s[..|s| - 1]) else s
  }

  function Trim(s: string): (t: string)
    ensures Trimmed(t)
    ensures |t| <= |s|
  {
    TrimEnd(TrimStart(s))
  }

  predicate Trimmed(s: string) {
    s == [] || (!IsSpace(s[0]) && !IsSpace(s[|s| - 1]))
  }

  predicate AllSpace(s: string) {
    forall i | 0 <= i < |s| :: IsSpace(s[i])
  }

  lemma {:induction false} TrimStartPadded(before: string, s: string)
    requires AllSpace(before)
    ensures TrimStart(before + s) == TrimStart(s)
  {
    if before == [] {
      assert before + s == s;
    } else {
      assert (before + s)[1..] == before[1..] + s;
      TrimStartPadded(before[1..], s);
    }
  }

  lemma {:induction false} TrimEndPadded(s: string, after: string)
    requires AllSpace(after)
    ensures TrimEnd(s + after) == TrimEnd(s)
  {
    if after == [] {
      assert s + after == s;
    } else {
      assert (s + after)[..|s + after| - 1] == s + after[..|after| - 1];
      TrimEndPadded(s, after[..|after| - 1]);
    }
  }

  /** Trimming removes exactly the white space around a string that has none at its ends. */
  lemma TrimPadded(before: string, s: string, after: string)
    requires AllSpace(before) && Trimmed(s) && AllSpace(after)
    ensures Trim(before + s + after) == s
  {
    assert before + s + after == before + (s + after);
    TrimStartPadded(before, s + after);
    if s == [] {
      assert s + after == after + [] && after + [] == after;
      TrimStartPadded(after, []);
    } else {
      TrimEndPadded(s, after);
    }
  }

  lemma TrimIdentity(s: string)
    requires Trimmed(s)
    ensures Trim(s) == s
  {
    TrimPadded([], s, []);
    assert [] + s + [] == s;
  }

  // ----- Searching -----

  /** The first position where `pat` occurs. */
  function Find(s: string, pat: string): (r: Option<nat>)
    requires pat != []
    ensures r.Some? ==> r.value + |pat| <= |s| && pat <= s[r.value..]
    ensures r.Some? ==> forall j | 0 <= j < r.value :: !(pat <= s[j..])
    ensures r.None? ==> forall j | 0 <= j <= |s| :: !(pat <= s[j..])
  {
    if pat <= s then Some(0)
    else if s == [] then None
    else
      var r := Find(s[1..], pat);
      assert forall j | 1 <= j <= |s| :: s[j..] == s[1..][j - 1..];
      if r.Some? then Some(r.value + 1) else None
  }

  predicate Contains(s: string, pat: string)
    requires pat != []
  {
    Find(s, pat).Some?
  }

  function SplitOnce(s: string, pat: string): (r: Option<(string, string)>)
    requires pat != []
    ensures r.Some? ==> s == r.value.0 + pat + r.value.1
  {
    var i := Find(s, pat);
    if i.None? then None else Some((s[..i.value], s[i.value + |pat|..]))
  }

  /** The first occurrence is where it is put, when nothing before can start one. */
  lemma FindAt(a: string, pat: string, b: string)
    requires pat != []
    requires forall j | 0 <= j < |a| :: !(pat <= (a + pat + b)[j..])
    ensures Find(a + pat + b, pat) == Some(|a|)
    ensures SplitOnce(a + pat + b, pat) == Some((a, b))
  {
    var s := a + pat + b;
    assert s[|a|..] == pat + b;
    assert pat <= s[|a|..];
    assert s[..|a|] == a && s[|a| + |pat|..] == b;
  }

  /** The usual case: the text before does not contain the pattern's first character. */
  lemma FindAfter(a: string, pat: string, b: string)
    requires pat != [] && pat[0] !in a
    ensures Find(a + pat + b, pat) == Some(|a|)
    ensures SplitOnce(a + pat + b, pat) == Some((a, b))
  {
    forall j | 0 <= j < |a| ensures !(pat <= (a + pat + b)[j..]) {
      assert (a + pat + b)[j..][0] == a[j];
    }
    FindAt(a, pat, b);
  }

  lemma FindNothing(s: string, pat: string)
    requires pat != [] && pat[0] !in s
    ensures Find(s, pat) == None
  {
    forall j | 0 <= j <= |s| ensures !(pat <= s[j..]) {
      if j < |s| {
        assert s[j..][0] == s[j];
      }
    }
  }

  function StripPrefix(s: string, pat: string): Option<string> {
    if pat <= s then Some(s[|pat|..]) else None
  }

  function StripSuffix(s: string, pat: string): Option<string> {
    if |pat| <= |s| && s[|s| - |pat|..] == pat then Some(s[..|s| - |pat|]) else None
  }

  function Join(parts: seq<string>, sep: string): string {
    if parts == [] then ""
    else if |parts| == 1 then parts[0]
    else parts[0] + sep + Join(parts[1..], sep)
  }

  /** The parts between the occurrences of `pat`, taken from the left. */
  function SplitAll(s: string, pat: string): (parts: seq<string>)
    requires pat != []
    ensures parts != []
    decreases |s|
  {
    match SplitOnce(s, pat)
    case None => [s]
    case Some((first, rest)) => [first] + SplitAll(rest, pat)
  }

  lemma PartLacks(s: string, pat: string, i: nat)
    requires pat != [] && Find(s, pat) == Some(i)
    ensures !Contains(s[..i], pat)
  {
    hide Find;
    assert forall j | 0 <= j < i :: !(pat <= s[j..]);
    forall j | 0 <= j <= i ensures !(pat <= s[..i][j..]) {
      if j < i {
        assert s[..i][j..] == s[j..][..i - j];
      } else {
        assert s[..i][j..] == [];
      }
    }
  }

  /** Splitting cuts at every occurrence and nowhere else: no part has one, and joined they are the text. */
  lemma {:induction false} SplitAllIsExact(s: string, pat: string)
    requires pat != []
    ensures Join(SplitAll(s, pat), pat) == s
    ensures forall part | part in SplitAll(s, pat) :: !Contains(part, pat)
    decreases |s|
  {
    var i := Find(s, pat);
    if i.Some? {
      var rest := s[i.value + |pat|..];
      SplitAllIsExact(rest, pat);
      PartLacks(s, pat, i.value);
      hide Find;
      assert SplitAll(s, pat) == [s[..i.value]] + SplitAll(rest, pat);
      assert ([s[..i.value]] + SplitAll(rest, pat))[1..] == SplitAll(rest, pat);
      assert s == s[..i.value] + pat + rest;
    }
  }

  lemma JoinCons(first: string, rest: seq<string>)
    requires rest != []
    ensures Join([first] + rest, ",") == first + "," + Join(rest, ",")
  {
    assert ([first] + rest)[1..] == rest;
  }

  /** Parts without a comma are what their list is split into. */
  lemma {:induction false} CommasSplit(labels: seq<string>)
    requires labels != [] && forall i | 0 <= i < |labels| :: ',' !in labels[i]
    ensures SplitAll(Join(labels, ","), ",") == labels
    decreases |labels|
  {
    if |labels| == 1 {
      FindNothing(labels[0], ",");
    } else {
      CommasSplit(labels[1..]);
      JoinCons(labels[0], labels[1..]);
      assert labels == [labels[0]] + labels[1..];
      FindAfter(labels[0], ",", Join(labels[1..], ","));
    }
  }

  // ----- Characters -----

  function ToLower(s: string): (t: string)
    ensures |t| == |s|
  {
    if s == [] then [] else [LowerChar(s[0])] + ToLower(s[1..])
  }

  function LowerChar(c: char): char {
    if 'A' <= c <= 'Z' then ((c as int) + 32) as char else c
  }

  const DIGITS: set<char> := {'0', '1', '2', '3', '4', '5', '6', '7', '8', '9'}
  const SMALL_LETTERS: set<char> := {
    'a', 'b', 'c', 'd', 'e', 'f', 'g', 'h', 'i', 'j', 'k', 'l', 'm',
    'n', 'o', 'p', 'q', 'r', 's', 't', 'u', 'v', 'w', 'x', 'y', 'z'}
  const CAPITALS: set<char> := {
    'A', 'B', 'C', 'D', 'E', 'F', 'G', 'H', 'I', 'J', 'K', 'L', 'M',
    'N', 'O', 'P', 'Q', 'R', 'S', 'T', 'U', 'V', 'W', 'X', 'Y', 'Z'}

  lemma DigitsAreListed(c: char)
    ensures c in DIGITS <==> '0' <= c <= '9'
  {
  }

  lemma SmallLettersAreListed(c: char)
    ensures c in SMALL_LETTERS <==> 'a' <= c <= 'z'
  {
  }

  lemma CapitalsAreListed(c: char)
    ensures c in CAPITALS <==> 'A' <= c <= 'Z'
  {
  }

  /** Lowering takes each capital to its small letter and leaves every other character alone. */
  lemma LowerKeepsPlace(c: char)
    ensures c in CAPITALS ==> LowerChar(c) in SMALL_LETTERS && LowerChar(c) as int - 'a' as int == c as int - 'A' as int
    ensures c !in CAPITALS ==> LowerChar(c) == c
  {
    CapitalsAreListed(c);
    SmallLettersAreListed(LowerChar(c));
    hide CAPITALS, SMALL_LETTERS;
  }

  lemma {:induction false} LowerAt(s: string, i: nat)
    requires i < |s|
    ensures ToLower(s)[i] == LowerChar(s[i])
  {
    if i > 0 {
      LowerAt(s[1..], i - 1);
    }
  }
}
