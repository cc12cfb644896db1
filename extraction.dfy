/** The email extraction engine: `re.findall` of the pattern
      \b[A-Za-z0-9._%+-]+@[A-Za-z0-9.-]+\.[A-Z|a-z]{2,}\b
    over a text, followed by removal of repeated matches, and the same applied
    to the `json.dumps` text of a decoded payload.

    The pattern is matched the way a backtracking engine does: at a start
    position the local part is the whole run of local characters (no shorter
    run can be followed by the at-sign, which is not a local character); the
    domain is first the whole run of domain characters and backs off one
    character at a time, each time requiring a dot next; the final label is
    first the whole run of label characters and backs off to two, each time
    requiring a word boundary after it. The first success in that order is the
    match; `findall` then resumes at its end, and after a failure at the next
    position. */
module Extraction {
  import opened Common
  import opened Json

  predicate IsAsciiLetter(c: char) { 'A' <= c <= 'Z' || 'a' <= c <= 'z' }

  predicate IsAsciiDigit(c: char) { '0' <= c <= '9' }

  /** `[A-Za-z0-9._%+-]` */
  predicate IsLocalChar(c: char)
  {
    IsAsciiLetter(c) || IsAsciiDigit(c) || c == '.' || c == '_' || c == '%' || c == '+' || c == '-'
  }

  /** `[A-Za-z0-9.-]` */
  predicate IsDomainChar(c: char)
  {
    IsAsciiLetter(c) || IsAsciiDigit(c) || c == '.' || c == '-'
  }

  /** `[A-Z|a-z]`: the bar is a literal member of the class. */
  predicate IsLabelChar(c: char)
  {
    IsAsciiLetter(c) || c == '|'
  }

  /** A word character for `\b` (letters, digits, underscore). */
  predicate IsWordChar(c: char)
  {
    IsAsciiLetter(c) || IsAsciiDigit(c) || c == '_'
  }

  /** `\b` at position i: exactly one of the neighbours is a word character. */
  predicate AtBoundary(text: string, i: int)
    requires 0 <= i <= |text|
  {
    (0 < i && IsWordChar(text[i - 1])) != (i < |text| && IsWordChar(text[i]))
  }

  /** text[p..e] is local part text[p..a], '@' at a, domain text[a+1..d],
      '.' at d, and a final label text[d+1..e] of at least two characters. */
  predicate Shaped(text: string, p: int, a: int, d: int, e: int)
  {
    && 0 <= p < a && a + 1 < d && d + 3 <= e <= |text|
    && (forall i :: p <= i < a ==> IsLocalChar(text[i]))
    && text[a] == '@'
    && (forall i :: a < i < d ==> IsDomainChar(text[i]))
    && text[d] == '.'
    && (forall i :: d < i < e ==> IsLabelChar(text[i]))
  }

  /** The whole pattern, word boundaries included, matches text[p..e]. */
  ghost predicate IsMatch(text: string, p: int, e: int)
  {
    0 <= p <= e <= |text| && AtBoundary(text, p) && AtBoundary(text, e) &&
    exists a, d :: Shaped(text, p, a, d, e)
  }

  /** A string of the address shape on its own. */
  ghost predicate EmailShape(s: string)
  {
    exists a, d :: Shaped(s, 0, a, d, |s|)
  }

  /** x is the text of a match of the pattern that starts at i. */
  ghost predicate MatchedAt(text: string, i: int, x: string)
  {
    0 <= i && i + |x| <= |text| && text[i..i + |x|] == x && IsMatch(text, i, i + |x|)
  }

  /** x is the text of a match of the pattern somewhere in text at or after p. */
  ghost predicate FoundIn(text: string, p: nat, x: string)
  {
    exists i :: p <= i && MatchedAt(text, i, x)
  }

  /** x occurs in text as a contiguous piece. */
  ghost predicate Occurs(x: string, text: string)
  {
    exists i :: 0 <= i <= |text| && x <= text[i..]
  }

  /** Where a match lies: the at-sign, the last dot and the end. */
  datatype Span = Span(at: nat, dot: nat, end: nat)

  /** The three character classes of the pattern. */
  datatype CharClass = LocalClass | DomainClass | LabelClass

  predicate InClass(c: char, k: CharClass)
  {
    match k
    case LocalClass => IsLocalChar(c)
    case DomainClass => IsDomainChar(c)
    case LabelClass => IsLabelChar(c)
  }

  /** Length of the longest run of characters of class k that starts at i. */
  function RunLength(text: string, i: nat, k: CharClass): (n: nat)
    requires i <= |text|
    ensures i + n <= |text|
    ensures i + n == |text| || !InClass(text[i + n], k)
    decreases |text| - i
  {
    if i < |text| && InClass(text[i], k) then 1 + RunLength(text, i + 1, k) else 0
  }

  /** A final label text[r..e] of two or more label characters ends at a boundary. */
  predicate LabelEndsAt(text: string, r: nat, e: nat)
  {
    && r + 2 <= e <= |text|
    && (forall i :: r <= i < e ==> IsLabelChar(text[i]))
    && AtBoundary(text, e)
  }

  /** `[A-Z|a-z]{2,}\b` tried with t characters first, then fewer down to two. */
  function TryLabel(text: string, r: nat, t: nat): (e: Option<nat>)
    requires r + t <= |text|
    ensures e.Some? ==> r + 2 <= e.value <= r + t && AtBoundary(text, e.value)
    ensures e.Some? ==> forall u :: e.value < u <= r + t ==> !AtBoundary(text, u)
    ensures e.None? ==> forall u :: r + 2 <= u <= r + t ==> !AtBoundary(text, u)
    decreases t
  {
    if t < 2 then None
    else if AtBoundary(text, r + t) then Some(r + t)
    else TryLabel(text, r, t - 1)
  }

  /** The longest final label starting at r that ends at a boundary, if any. */
  function LabelAt(text: string, r: nat): (e: Option<nat>)
    requires r <= |text|
    ensures e.Some? ==> LabelEndsAt(text, r, e.value)
    ensures e.Some? ==> forall u :: e.value < u <= r + RunLength(text, r, LabelClass) ==> !AtBoundary(text, u)
    ensures e.None? ==> forall u :: r + 2 <= u <= r + RunLength(text, r, LabelClass) ==> !AtBoundary(text, u)
  {
    RunLengthRun(text, r, LabelClass);
    TryLabel(text, r, RunLength(text, r, LabelClass))
  }

  /** The final label after the dot at d. */
  function LabelAfter(text: string, d: nat): (e: Option<nat>)
    requires d < |text|
  {
    LabelAt(text, d + 1)
  }

  /** The last dot of the domain: the domain run text[q..q+n] backed off one
      character at a time, each cut requiring a dot and then a final label,
      and keeping at least one domain character before the dot. */
  function TryDomain(text: string, q: nat, n: nat): (d: Option<nat>)
    requires q + n <= |text|
    ensures d.Some? ==> q < d.value < q + n && text[d.value] == '.'
    ensures d.Some? ==> LabelAfter(text, d.value).Some?
    decreases n
  {
    if n < 2 then None
    else if text[q + n - 1] == '.' && LabelAfter(text, q + n - 1).Some? then Some(q + n - 1)
    else TryDomain(text, q, n - 1)
  }

  /** The last dot of the domain that follows the at-sign at a: a cut of the
      domain run, at least one character in, that a final label follows. */
  function LastDot(text: string, a: nat): (d: Option<nat>)
    requires a < |text|
    ensures d.Some? ==> a + 1 < d.value < a + 1 + RunLength(text, a + 1, DomainClass)
    ensures d.Some? ==> text[d.value] == '.' && LabelAfter(text, d.value).Some?
  {
    TryDomain(text, a + 1, RunLength(text, a + 1, DomainClass))
  }

  /** What the engine finds after the at-sign at a: the domain, its last dot
      and the final label. */
  function AfterAt(text: string, a: nat): Option<Span>
    requires a < |text|
  {
    match LastDot(text, a)
    case Some(d) => Some(Span(a, d, LabelAfter(text, d).value))
    case None => None
  }

  /** The at-sign that ends the local part when the engine tries position p. */
  function AtSignAt(text: string, p: nat): (a: Option<nat>)
    requires p <= |text|
    ensures a.Some? ==> p < a.value < |text| && text[a.value] == '@'
  {
    if !AtBoundary(text, p) then None
    else
      var a := p + RunLength(text, p, LocalClass);
      if a == p || a == |text| || text[a] != '@' then None else Some(a)
  }

  /** The match the engine finds when it tries position p, if any. */
  function MatchAt(text: string, p: nat): Option<Span>
    requires p <= |text|
  {
    match AtSignAt(text, p)
    case None => None
    case Some(a) => AfterAt(text, a)
  }

  /** What is found after an at-sign is a domain, a dot and a final label
      ending at a boundary. */
  lemma AfterAtSound(text: string, a: nat)
    requires a < |text|
    ensures var m := AfterAt(text, a);
      m.Some? ==> && m.value.at == a && a + 1 < m.value.dot && m.value.dot + 3 <= m.value.end <= |text|
                  && (forall i :: a < i < m.value.dot ==> IsDomainChar(text[i]))
                  && text[m.value.dot] == '.' && LabelEndsAt(text, m.value.dot + 1, m.value.end)
  {
    match LastDot(text, a)
    case Some(d) =>
      RunLengthRun(text, a + 1, DomainClass);
      forall i | a < i < d
        ensures IsDomainChar(text[i])
      {
        assert InClass(text[i], DomainClass);
      }
    case None =>
  }

  /** The at-sign found from p ends a local part that starts at a boundary. */
  lemma AtSignAtSound(text: string, p: nat)
    requires p <= |text|
    ensures var a := AtSignAt(text, p);
      a.Some? ==> AtBoundary(text, p) && forall i :: p <= i < a.value ==> IsLocalChar(text[i])
  {
    if AtBoundary(text, p) {
      RunLengthRun(text, p, LocalClass);
      forall i | p <= i < p + RunLength(text, p, LocalClass)
        ensures IsLocalChar(text[i])
      {
        assert InClass(text[i], LocalClass);
      }
    }
  }

  /** A match found at p has the shape of the pattern with boundaries at both ends. */
  lemma MatchAtSound(text: string, p: nat)
    requires p <= |text|
    ensures var m := MatchAt(text, p);
      m.Some? ==> Shaped(text, p, m.value.at, m.value.dot, m.value.end)
                  && AtBoundary(text, p) && AtBoundary(text, m.value.end)
  {
    match AtSignAt(text, p)
    case Some(a) =>
      AtSignAtSound(text, p);
      AfterAtSound(text, a);
    case None =>
  }

  /** Every character of the run is of the class. */
  lemma {:induction false} RunLengthRun(text: string, i: nat, k: CharClass)
    requires i <= |text|
    ensures forall j :: i <= j < i + RunLength(text, i, k) ==> InClass(text[j], k)
    decreases |text| - i
  {
    if i < |text| && InClass(text[i], k) {
      RunLengthRun(text, i + 1, k);
    }
  }

  /** A run of k characters of the class starting at i is no longer than the maximal run. */
  lemma {:induction false} RunLengthCovers(text: string, i: nat, c: CharClass, k: nat)
    requires i + k <= |text|
    requires forall j :: i <= j < i + k ==> InClass(text[j], c)
    ensures k <= RunLength(text, i, c)
    decreases k
  {
    if k > 0 {
      RunLengthCovers(text, i + 1, c, k - 1);
    }
  }

  /** A run of exactly n class characters, followed by the end of the text or
      by a character outside the class, is the maximal run. */
  lemma RunLengthExact(text: string, i: nat, k: CharClass, n: nat)
    requires i + n <= |text|
    requires forall j :: i <= j < i + n ==> InClass(text[j], k)
    requires i + n == |text| || !InClass(text[i + n], k)
    ensures RunLength(text, i, k) == n
  {
    RunLengthCovers(text, i, k, n);
    RunLengthRun(text, i, k);
  }

  /** A label of two or more characters after the dot at d that ends at a
      boundary e is found, and the label found is no shorter. */
  lemma LabelAfterComplete(text: string, d: nat, e: nat)
    requires d + 3 <= e <= |text|
    requires forall i :: d < i < e ==> IsLabelChar(text[i])
    requires AtBoundary(text, e)
    ensures LabelAfter(text, d).Some? && e <= LabelAfter(text, d).value
  {
    RunLengthCovers(text, d + 1, LabelClass, e - d - 1);
  }

  /** A dot at d within the domain run that has a label after it is found, or
      a later one is. */
  lemma {:induction false} TryDomainComplete(text: string, q: nat, n: nat, d: nat)
    requires q < d < q + n <= |text|
    requires text[d] == '.' && LabelAfter(text, d).Some?
    ensures TryDomain(text, q, n).Some? && d <= TryDomain(text, q, n).value
    decreases n
  {
    if !(text[q + n - 1] == '.' && LabelAfter(text, q + n - 1).Some?) {
      TryDomainComplete(text, q, n - 1, d);
    }
  }

  /** A dot at d inside the domain run after the at-sign at a, with a final
      label after it, is found as the last dot, or a later one is. */
  lemma LastDotComplete(text: string, a: nat, d: nat)
    requires a + 1 < d < |text|
    requires forall i :: a < i < d ==> IsDomainChar(text[i])
    requires text[d] == '.' && LabelAfter(text, d).Some?
    ensures LastDot(text, a).Some? && d <= LastDot(text, a).value
  {
    var q := a + 1;
    assert IsDomainChar(text[d]);
    RunLengthCovers(text, q, DomainClass, d - q + 1);
    TryDomainComplete(text, q, RunLength(text, q, DomainClass), d);
  }

  /** Completeness and priority after the at-sign: a domain ending in the dot at
      d followed by a label ending at a boundary e is found, with a last dot no
      earlier than d and, for the same dot, an end no earlier than e. */
  lemma AfterAtComplete(text: string, a: nat, d: nat, e: nat)
    requires a + 1 < d && d + 3 <= e <= |text|
    requires forall i :: a < i < d ==> IsDomainChar(text[i])
    requires text[d] == '.' && forall i :: d < i < e ==> IsLabelChar(text[i])
    requires AtBoundary(text, e)
    ensures AfterAt(text, a).Some?
    ensures d <= AfterAt(text, a).value.dot
    ensures d == AfterAt(text, a).value.dot ==> e <= AfterAt(text, a).value.end
  {
    LabelAfterComplete(text, d, e);
    LastDotComplete(text, a, d);
  }

  /** Completeness and priority: whenever the pattern matches text[p..e] with its
      at-sign at a and its last dot at d, the engine's attempt at p succeeds, with
      the same at-sign, a last dot no earlier than d, and for the same dot an end
      no earlier than e. */
  lemma {:induction false} MatchAtComplete(text: string, p: nat, a: int, d: int, e: int)
    requires Shaped(text, p, a, d, e) && AtBoundary(text, p) && AtBoundary(text, e)
    ensures MatchAt(text, p).Some?
    ensures MatchAt(text, p).value.at == a
    ensures d <= MatchAt(text, p).value.dot
    ensures d == MatchAt(text, p).value.dot ==> e <= MatchAt(text, p).value.end
  {
    LocalPartComplete(text, p, a);
    MatchAtIsAfterAt(text, p, a);
    AfterAtComplete(text, a, d, e);
  }

  /** At a boundary, a run of local characters ending at an at-sign hands
      over to the search after the at-sign. */
  lemma MatchAtIsAfterAt(text: string, p: nat, a: nat)
    requires p < a < |text| && text[a] == '@' && AtBoundary(text, p)
    requires RunLength(text, p, LocalClass) == a - p
    ensures MatchAt(text, p) == AfterAt(text, a)
  {
    assert AtSignAt(text, p) == Some(a);
  }

  /** The local part of a match is the whole run of local characters at p. */
  lemma LocalPartComplete(text: string, p: nat, a: nat)
    requires p < a < |text| && text[a] == '@'
    requires forall i :: p <= i < a ==> IsLocalChar(text[i])
    ensures RunLength(text, p, LocalClass) == a - p
  {
    RunLengthCovers(text, p, LocalClass, a - p);
    RunLengthRun(text, p, LocalClass);
    assert !IsLocalChar(text[a]);
  }

  /** `re.findall` from position p: the texts of successive matches, resuming
      after each match and one position further after each failed attempt. */
  function FindAll(text: string, p: nat): (r: seq<string>)
    requires p <= |text|
    ensures forall x :: x in r ==> FoundIn(text, p, x)
    decreases |text| - p
  {
    if p == |text| then []
    else
      match MatchAt(text, p)
      case Some(m) =>
        MatchAtMatches(text, p);
        [text[p..m.end]] + FindAll(text, m.end)
      case None => FindAll(text, p + 1)
  }

  /** The attempt at p fails before the at-sign when p is not a word
      boundary, or when the run of local characters from p is empty or is not
      followed by an at-sign. */
  lemma NoMatchAt(text: string, p: nat)
    requires p <= |text|
    requires var n := RunLength(text, p, LocalClass);
      !AtBoundary(text, p) || n == 0 || p + n == |text| || text[p + n] != '@'
    ensures MatchAt(text, p).None?
  {
  }

  /** At a boundary, a run of n > 0 local characters followed by an at-sign
      takes the attempt to that at-sign. */
  lemma AtSignAtRun(text: string, p: nat, n: nat)
    requires p + n < |text| && 0 < n
    requires AtBoundary(text, p) && RunLength(text, p, LocalClass) == n && text[p + n] == '@'
    ensures AtSignAt(text, p) == Some(p + n)
  {
  }

  /** A failed attempt at p moves the scan on to p + 1. */
  lemma FindAllSkip(text: string, p: nat)
    requires p < |text| && MatchAt(text, p).None?
    ensures FindAll(text, p) == FindAll(text, p + 1)
  {
  }

  /** A stretch of failed attempts is skipped: the scan from q returns what
      the scan from p returns. */
  lemma {:induction false} FindAllSkipRange(text: string, q: nat, p: nat)
    requires q <= p <= |text|
    requires forall i :: q <= i < p ==> MatchAt(text, i).None?
    ensures FindAll(text, q) == FindAll(text, p)
    decreases p - q
  {
    if q < p {
      FindAllSkip(text, q);
      FindAllSkipRange(text, q + 1, p);
    }
  }

  /** The text the engine finds at p is a match of the pattern at p. */
  lemma MatchAtMatches(text: string, p: nat)
    requires p <= |text| && MatchAt(text, p).Some?
    ensures p < MatchAt(text, p).value.end <= |text|
    ensures MatchedAt(text, p, text[p..MatchAt(text, p).value.end])
  {
    MatchAtSound(text, p);
    var m := MatchAt(text, p).value;
    assert Shaped(text, p, m.at, m.dot, m.end);
  }

  /** A scan from q that fails at every position before p reaches p, and
      returns the match the engine finds there. */
  lemma {:induction false} FindAllReaches(text: string, q: nat, p: nat)
    requires q <= p <= |text|
    requires forall i :: q <= i < p ==> MatchAt(text, i).None?
    requires MatchAt(text, p).Some?
    ensures text[p..MatchAt(text, p).value.end] in FindAll(text, q)
    decreases p - q
  {
    if q < p {
      FindAllReaches(text, q + 1, p);
    } else {
      MatchAtMatches(text, p);
    }
  }

  /** Completeness of the scan: when the pattern matches text[p..e] with its
      at-sign at a and last dot at d, and the scan from q fails at every
      position before p (q being where it starts or resumes), the scan
      returns the greedy match at p, which has the same at-sign, a last dot
      no earlier than d and, for the same dot, an end no earlier than e. */
  lemma FindAllComplete(text: string, q: nat, p: nat, a: int, d: int, e: int)
    requires q <= p
    requires Shaped(text, p, a, d, e) && AtBoundary(text, p) && AtBoundary(text, e)
    requires forall i :: q <= i < p ==> MatchAt(text, i).None?
    ensures MatchAt(text, p).Some?
    ensures var m := MatchAt(text, p).value;
      && text[p..m.end] in FindAll(text, q)
      && m.at == a && d <= m.dot && (d == m.dot ==> e <= m.end)
  {
    MatchAtComplete(text, p, a, d, e);
    FindAllReaches(text, q, p);
  }

  /** A text without an at-sign after p yields no match after p. */
  lemma {:induction false} FindAllNeedsAt(text: string, p: nat)
    requires p <= |text|
    requires '@' !in text[p..]
    ensures FindAll(text, p) == []
    decreases |text| - p
  {
    if p < |text| {
      match MatchAt(text, p)
      case Some(m) =>
      case None =>
        assert text[p + 1..] == text[p..][1..];
        FindAllNeedsAt(text, p + 1);
    }
  }

  /** A match at i, seen on its own text x: the same shape, shifted by i. */
  lemma ShapedShift(text: string, i: nat, x: string, a: int, d: int)
    requires i + |x| <= |text| && text[i..i + |x|] == x
    requires Shaped(text, i, a, d, i + |x|)
    ensures Shaped(x, 0, a - i, d - i, |x|)
  {
    forall k | 0 <= k < |x|
      ensures x[k] == text[i + k]
    {
      assert x[k] == text[i..i + |x|][k];
    }
  }

  /** A found text has the address shape on its own and contains an at-sign. */
  lemma FoundHasShape(text: string, p: nat, x: string)
    requires FoundIn(text, p, x)
    ensures EmailShape(x) && '@' in x
  {
    var i :| p <= i && MatchedAt(text, i, x);
    var a, d :| Shaped(text, i, a, d, i + |x|);
    ShapedShift(text, i, x, a, d);
    assert x[a - i] == '@';
  }

  /** A found text occurs in the text. */
  lemma FoundOccurs(text: string, p: nat, x: string)
    requires FoundIn(text, p, x)
    ensures Occurs(x, text)
  {
    var i :| p <= i && MatchedAt(text, i, x);
    assert text[i..][..|x|] == text[i..i + |x|];
  }

  /** Keeps the first occurrence of every element, in order. */
  function Dedup(s: seq<string>): (r: seq<string>)
    ensures Distinct(r)
    ensures forall x :: x in r <==> x in s
    ensures |r| <= |s|
  {
    if s == [] then []
    else
      var rest := Dedup(s[..|s| - 1]);
      var last := s[|s| - 1];
      assert s == s[..|s| - 1] + [last];
      if last in rest then rest else rest + [last]
  }

  /** `extract_emails_from_text`: the distinct matches of the pattern. */
  function ExtractFromText(text: string): (r: seq<string>)
    ensures Distinct(r)
    ensures forall x :: x in r <==> x in FindAll(text, 0)
    ensures forall x :: x in r ==> FoundIn(text, 0, x)
  {
    Dedup(FindAll(text, 0))
  }

  /** Every extracted address is the text of a match in the input and has the
      address shape: local part, at-sign, domain, dot, label of two or more. */
  lemma ExtractedAreAddresses(text: string, x: string)
    requires x in ExtractFromText(text)
    ensures Occurs(x, text)
    ensures EmailShape(x)
  {
    FoundHasShape(text, 0, x);
    FoundOccurs(text, 0, x);
  }

  /** Completeness of extraction: the first match of the pattern in the text,
      read greedily, is among the extracted addresses. */
  lemma ExtractFindsFirstMatch(text: string, p: nat, a: int, d: int, e: int)
    requires Shaped(text, p, a, d, e) && AtBoundary(text, p) && AtBoundary(text, e)
    requires forall i :: 0 <= i < p ==> MatchAt(text, i).None?
    ensures MatchAt(text, p).Some? && text[p..MatchAt(text, p).value.end] in ExtractFromText(text)
  {
    FindAllComplete(text, 0, p, a, d, e);
  }

  /** A text without an at-sign yields nothing. */
  lemma {:induction false} ExtractNeedsAt(text: string)
    requires '@' !in text
    ensures ExtractFromText(text) == []
  {
    assert text[0..] == text;
    FindAllNeedsAt(text, 0);
  }

  /** A text that holds the same address twice. */
  const Sample: string := "contact: a@b.com, a@b.com"

  /** Inside a word of Sample, and between two non-word characters, there is no boundary. */
  lemma SampleNoBoundary(t: string, i: nat)
    requires t == Sample
    requires 0 < i < 7 || i == 8 || i == 17
    ensures !AtBoundary(t, i)
  {
    assert IsWordChar(t[i - 1]) == IsWordChar(t[i]);
  }

  /** The attempts at the positions of Sample outside the two addresses fail. */
  lemma SampleNoMatch(t: string, i: nat)
    requires t == Sample
    requires i < 9 || 16 <= i < 18
    ensures MatchAt(t, i).None?
  {
    if i == 0 {
      RunLengthExact(t, 0, LocalClass, 7);
    } else if i == 7 || i == 16 {
      RunLengthExact(t, i, LocalClass, 0);
    } else {
      SampleNoBoundary(t, i);
    }
    NoMatchAt(t, i);
  }

  /** The local part of each address in Sample is the single letter before its at-sign. */
  lemma SampleLocal(t: string, p: nat)
    requires t == Sample
    requires p == 9 || p == 18
    ensures AtSignAt(t, p) == Some(p + 1)
  {
    RunLengthExact(t, p, LocalClass, 1);
    if p == 9 {
      assert t[8] == ' ' && t[9] == 'a' && t[10] == '@';
    } else {
      assert t[17] == ' ' && t[18] == 'a' && t[19] == '@';
    }
    AtSignAtRun(t, p, 1);
  }

  /** The domain run after each at-sign of Sample is "b.com". */
  lemma SampleDomainRun(t: string, p: nat)
    requires t == Sample
    requires p == 9 || p == 18
    ensures RunLength(t, p + 2, DomainClass) == 5
  {
    RunLengthExact(t, p + 2, DomainClass, 5);
  }

  /** The final label after each dot of Sample is "com", ending at a boundary. */
  lemma SampleLabel(t: string, p: nat)
    requires t == Sample
    requires p == 9 || p == 18
    ensures LabelAfter(t, p + 3) == Some(p + 7)
  {
    RunLengthExact(t, p + 4, LabelClass, 3);
    assert AtBoundary(t, p + 7);
  }

  /** The last dot of each address in Sample is the one before "com". */
  lemma SampleDot(t: string, p: nat)
    requires t == Sample
    requires p == 9 || p == 18
    ensures LastDot(t, p + 1) == Some(p + 3)
  {
    SampleDomainRun(t, p);
    SampleLabel(t, p);
    assert TryDomain(t, p + 2, 2) == Some(p + 3);
    assert TryDomain(t, p + 2, 3) == Some(p + 3);
    assert TryDomain(t, p + 2, 4) == Some(p + 3);
  }

  /** The engine's match at p in Sample: the address a@b.com at p. */
  lemma SampleMatch(t: string, p: nat)
    requires t == Sample
    requires p == 9 || p == 18
    ensures MatchAt(t, p) == Some(Span(p + 1, p + 3, p + 7))
  {
    SampleLocal(t, p);
    SampleDot(t, p);
    SampleLabel(t, p);
  }

  /** The scan of Sample finds the address at 9 and again at 18. */
  lemma SampleFindAll(t: string)
    requires t == Sample
    ensures FindAll(t, 0) == [t[9..16], t[18..25]]
  {
    SampleMatch(t, 9);
    SampleFindAllTail(t);
    SamplePrefix(t);
    assert FindAll(t, 9) == [t[9..16]] + FindAll(t, 16);
  }

  /** Before the first address the scan of Sample finds nothing. */
  lemma SamplePrefix(t: string)
    requires t == Sample
    ensures FindAll(t, 0) == FindAll(t, 9)
  {
    forall i | 0 <= i < 9
      ensures MatchAt(t, i).None?
    {
      SampleNoMatch(t, i);
    }
    FindAllSkipRange(t, 0, 9);
  }

  /** After the first address, the scan of Sample finds only the second. */
  lemma SampleFindAllTail(t: string)
    requires t == Sample
    ensures FindAll(t, 16) == [t[18..25]]
  {
    SampleMatch(t, 18);
    SampleNoMatch(t, 16);
    SampleNoMatch(t, 17);
    FindAllSkip(t, 16);
    FindAllSkip(t, 17);
    assert FindAll(t, 25) == [];
    assert FindAll(t, 18) == [t[18..25]] + FindAll(t, 25);
  }

  /** Both matches in Sample are the text a@b.com. */
  lemma SampleAddresses(t: string)
    requires t == Sample
    ensures t[9..16] == "a@b.com" && t[18..25] == "a@b.com"
  {
    var a: string := "a@b.com";
    forall k | 0 <= k < 7
      ensures t[9..16][k] == a[k] && t[18..25][k] == a[k]
    {
      assert t[9 + k] == a[k] && t[18 + k] == a[k];
    }
  }

  /** A repeated address is extracted once:
      "contact: a@b.com, a@b.com" yields exactly ["a@b.com"]. */
  lemma ExtractRepeated()
    ensures ExtractFromText(Sample) == ["a@b.com"]
  {
    SampleFindAll(Sample);
    SampleAddresses(Sample);
    var x: string := "a@b.com";
    assert [x, x][..1] == [x];
    assert Dedup([x]) == [x];
  }

  /** `extract_emails_from_json`: extraction over the `json.dumps` text. */
  function ExtractFromJson(j: Json): (r: seq<string>)
    ensures Distinct(r)
    ensures forall x :: x in r ==> FoundIn(Dumps(j), 0, x)
    ensures !HasAt(j) ==> r == []
  {
    var text := Dumps(j);
    assert !HasAt(j) ==> ExtractFromText(text) == [] by {
      if !HasAt(j) { ExtractNeedsAt(text); }
    }
    ExtractFromText(text)
  }
}
