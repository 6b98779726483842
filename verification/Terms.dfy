/** Splitting an expression at its separators, but not inside groupings. */
module Terms {
  /** Four pairs are listed; the fifth of the array is left to its zeros. */
  const GROUPS: seq<(char, char)> := [('(', ')'), ('{', '}'), ('[', ']'), ('|', '|'), ('\0', '\0')]

  datatype Term = Term(text: string, index: int)

  predicate Occurs(s: string, t: string, i: int) {
    0 <= i && i + |t| <= |s| && s[i..i + |t|] == t
  }

  function FindFrom(s: string, t: string, i: nat): (r: int)
    requires i <= |s|
    ensures r >= 0 ==> i <= r && Occurs(s, t, r) && forall j :: i <= j < r ==> !Occurs(s, t, j)
    ensures r < 0 ==> forall j :: i <= j ==> !Occurs(s, t, j)
    decreases |s| - i
  {
    if Occurs(s, t, i) then i else if i == |s| then -1 else FindFrom(s, t, i + 1)
  }

  /** string::find on unsigned positions: not found compares as the largest of them. */
  predicate Earlier(a: int, b: int) {
    a >= 0 && (b < 0 || a < b)
  }

  predicate Opens(c: char) {
    c == '(' || c == '{' || c == '[' || c == '|' || c == '\0'
  }

  predicate Groups(c: char) {
    Opens(c) || c == ')' || c == '}' || c == ']'
  }

  function CloserOf(c: char): char {
    if c == '(' then ')' else if c == '{' then '}' else if c == '[' then ']' else c
  }

  lemma GroupPairs(g: nat)
    requires g < |GROUPS|
    ensures Opens(GROUPS[g].0) && GROUPS[g].1 == CloserOf(GROUPS[g].0)
  {
  }

  /** A scanner that reads one character at a time: outside any group, or in one, so many deep. */
  datatype ScanState = Outside | Inside(open: char, depth: nat)

  function Step(st: ScanState, c: char): ScanState {
    match st
    case Outside => if Opens(c) then Inside(c, 1) else Outside
    case Inside(open, depth) =>
      var up := if c == open && CloserOf(open) != open then depth + 1 else depth;
      if c != CloserOf(open) then Inside(open, up)
      else if up <= 1 then Outside
      else Inside(open, up - 1)
  }

  function Scan(s: string): ScanState {
    if s == [] then Outside else Step(Scan(s[..|s| - 1]), s[|s| - 1])
  }

  lemma {:induction false} ScanConcat(a: string, b: string)
    requires Scan(a).Outside?
    ensures Scan(a + b) == Scan(b)
  {
    if b == [] {
      assert a + b == a;
    } else {
      ScanConcat(a, b[..|b| - 1]);
      assert (a + b)[..|a + b| - 1] == a + b[..|b| - 1];
      hide Step;
    }
  }

  lemma ScanPush(s: string, i: nat)
    requires i < |s|
    ensures Scan(s[..i + 1]) == Step(Scan(s[..i]), s[i])
  {
    assert s[..i + 1][..i] == s[..i];
    hide Step;
  }

  /** Nothing opens: the scanner stays outside. */
  lemma {:induction false} ScanPlain(s: string)
    requires forall c :: c in s ==> !Opens(c)
    ensures Scan(s).Outside?
  {
    if s != [] {
      ScanPlain(s[..|s| - 1]);
      hide Opens;
    }
  }

  predicate Real(seps: seq<string>) {
    forall k :: 0 <= k < |seps| ==> seps[k] != []
  }

  /** Separators that share no character with the grouping symbols. */
  predicate Plain(seps: seq<string>) {
    Real(seps) && forall k, c :: 0 <= k < |seps| && c in seps[k] ==> !Groups(c)
  }

  /** No separator starts outside the groups of t. */
  predicate Clean(seps: seq<string>, t: string) {
    forall i, k :: 0 <= i <= |t| && 0 <= k < |seps| && Occurs(t, seps[k], i) ==> Scan(t[..i]).Inside?
  }

  /** A separator in a group that is never closed. */
  predicate Stuck(seps: seq<string>, s: string) {
    exists i, k :: 0 <= i <= |s| && 0 <= k < |seps| && Occurs(s, seps[k], i) && NeverOut(s, i)
  }

  predicate NeverOut(s: string, i: nat) {
    forall q :: i <= q <= |s| ==> Scan(s[..q]).Inside?
  }

  /** Terms and separators put back together. */
  function Joined(seps: seq<string>, terms: seq<Term>): string
    requires forall t :: t in terms ==> t.index < |seps|
  {
    if terms == [] then []
    else
      var last := terms[|terms| - 1];
      Joined(seps, terms[..|terms| - 1]) + last.text + (if last.index >= 0 then seps[last.index] else [])
  }

  /** Without the symbol itself, a group closed by the symbol that opens it stays open. */
  lemma {:induction false} StaysInside(s: string, open: char, q: nat)
    requires 1 <= q <= |s| && Scan(s[..1]) == Inside(open, 1) && CloserOf(open) == open
    requires forall j :: 1 <= j < q ==> s[j] != open
    ensures Scan(s[..q]) == Inside(open, 1)
  {
    if q > 1 {
      StaysInside(s, open, q - 1);
      ScanPush(s, q - 1);
    }
  }

  /** The next instance of a symbol that closes itself. */
  method FindSame(s: string, open: char) returns (found: bool, closing: nat)
    requires s != [] && s[0] == open && Opens(open) && CloserOf(open) == open
    ensures found ==> 1 <= closing < |s| && s[closing] == open && Scan(s[..closing + 1]).Outside?
    ensures found ==> forall q :: 1 <= q <= closing ==> Scan(s[..q]).Inside?
    ensures !found ==> NeverOut(s, 1)
  {
    var p := FindFrom(s, [open], 1);
    ScanPush(s, 0);
    forall j | 1 <= j < |s| && (p < 0 || j < p)
      ensures s[j] != open
    {
      assert !Occurs(s, [open], j);
      assert s[j..j + 1] == [s[j]];
    }
    forall q | 1 <= q <= |s| && (p < 0 || q <= p)
      ensures Scan(s[..q]) == Inside(open, 1)
    {
      StaysInside(s, open, q);
    }
    if p >= 0 {
      assert s[p..p + 1] == [s[p]];
      ScanPush(s, p);
      return true, p;
    }
    return false, 0;
  }

  lemma StepCounts(open: char, depth: nat, c: char)
    requires Opens(open) && CloserOf(open) != open && depth >= 1
    ensures var n := depth + (if c == open then 1 else 0) - (if c == CloserOf(open) then 1 else 0);
      n >= 0 && Step(Inside(open, depth), c) == if n == 0 then Outside else Inside(open, n)
  {
  }

  /** The first closing position for the group s starts with. */
  method GetClosingSymbol(s: string, group: nat) returns (found: bool, closing: nat)
    requires group < |GROUPS|
    ensures found ==> s != [] && s[0] == GROUPS[group].0 && 1 <= closing < |s| && Scan(s[..closing + 1]).Outside?
    ensures found ==> s[closing] == GROUPS[group].1
    ensures found ==> forall q :: 1 <= q <= closing ==> Scan(s[..q]).Inside?
    ensures !found && s != [] && s[0] == GROUPS[group].0 ==> NeverOut(s, 1)
  {
    hide Scan;
    closing := 0;
    var (open, close) := GROUPS[group];
    if |s| == 0 || s[0] != open {
      return false, 0;
    }
    GroupPairs(group);
    if open == close {
      found, closing := FindSame(s, open);
      return;
    }
    NothingScanned(s);
    ScanPush(s, 0);
    var count := 1;
    for i := 1 to |s|
      invariant count >= 1 && Scan(s[..i]) == Inside(open, count)
      invariant forall q :: 1 <= q <= i ==> Scan(s[..q]).Inside?
    {
      ScanPush(s, i);
      StepCounts(open, count, s[i]);
      if s[i] == open {
        count := count + 1;
      }
      if s[i] == close {
        count := count - 1;
      }
      if count == 0 {
        return true, i;
      }
    }
    return false, 0;
  }

  lemma NothingScanned(s: string)
    ensures Scan(s[..0]).Outside?
  {
  }

  /** The earliest separator, the first in the list among those that start there. */
  method FindSplit(suffix: string, seps: seq<string>) returns (pos: int, index: int)
    ensures -1 <= index < |seps|
    ensures index >= 0 ==> pos >= 0 && Occurs(suffix, seps[index], pos)
    ensures index >= 0 ==> forall j, k :: 0 <= j < pos && 0 <= k < |seps| ==> !Occurs(suffix, seps[k], j)
    ensures index >= 0 ==> forall k :: 0 <= k < index ==> !Occurs(suffix, seps[k], pos)
    ensures index < 0 ==> forall j, k :: 0 <= j && 0 <= k < |seps| ==> !Occurs(suffix, seps[k], j)
  {
    pos, index := -1, -1;
    for i := 0 to |seps|
      invariant -1 <= index < i && (index < 0 <==> pos < 0)
      invariant index >= 0 ==> Occurs(suffix, seps[index], pos)
      invariant index >= 0 ==> forall j, k :: 0 <= j < pos && 0 <= k < i ==> !Occurs(suffix, seps[k], j)
      invariant index >= 0 ==> forall k :: 0 <= k < index ==> !Occurs(suffix, seps[k], pos)
      invariant index < 0 ==> forall j, k :: 0 <= j && 0 <= k < i ==> !Occurs(suffix, seps[k], j)
    {
      var current := FindFrom(suffix, seps[i], 0);
      if Earlier(current, pos) {
        index := i;
        pos := current;
      }
    }
  }

  /** The earliest opening symbol. */
  method FindGroup(suffix: string) returns (pos: int, index: int)
    ensures -1 <= index < |GROUPS|
    ensures index >= 0 ==> 0 <= pos < |suffix| && suffix[pos] == GROUPS[index].0
    ensures forall j :: 0 <= j < (if index >= 0 then pos else |suffix|) ==> !Opens(suffix[j])
  {
    pos, index := -1, -1;
    for i := 0 to |GROUPS|
      invariant -1 <= index < i && (index < 0 <==> pos < 0)
      invariant index >= 0 ==> 0 <= pos < |suffix| && suffix[pos] == GROUPS[index].0
      invariant forall j, g :: 0 <= j < (if index >= 0 then pos else |suffix|) && 0 <= g < i ==>
        suffix[j] != GROUPS[g].0
    {
      var current := FindFrom(suffix, [GROUPS[i].0], 0);
      ghost var end := if current >= 0 then current else |suffix|;
      forall j | 0 <= j < end
        ensures suffix[j] != GROUPS[i].0
      {
        assert !Occurs(suffix, [GROUPS[i].0], j);
        assert suffix[j..j + 1] == [suffix[j]];
      }
      if Earlier(current, pos) {
        assert suffix[current..current + 1] == [suffix[current]];
        index := i;
        pos := current;
      }
    }
    forall j | 0 <= j < (if index >= 0 then pos else |suffix|)
      ensures !Opens(suffix[j])
    {
      EveryOpener(suffix[j]);
    }
  }

  lemma EveryOpener(c: char)
    ensures Opens(c) <==> exists g :: 0 <= g < |GROUPS| && GROUPS[g].0 == c
  {
    assert GROUPS[0].0 == '(' && GROUPS[1].0 == '{' && GROUPS[2].0 == '[' && GROUPS[3].0 == '|' && GROUPS[4].0 == '\0';
  }

  /** An occurrence that starts in x ends in it, too: it cannot hold the grouping symbol x ends with. */
  lemma NoStraddle(x: string, u: string, sep: string, i: nat)
    requires i < |x| && Groups(x[|x| - 1]) && Occurs(x + u, sep, i)
    requires forall c :: c in sep ==> !Groups(c)
    ensures Occurs(x, sep, i)
  {
    hide Groups;
    forall e | i <= e < i + |sep|
      ensures !Groups((x + u)[e])
    {
      assert (x + u)[i..i + |sep|][e - i] == sep[e - i];
    }
    assert (x + u)[|x| - 1] == x[|x| - 1];
    assert i + |sep| <= |x|;
    assert x[i..i + |sep|] == (x + u)[i..i + |sep|];
  }

  lemma OccursTail(a: string, b: string, sep: string, j: nat)
    ensures Occurs(a + b, sep, |a| + j) <==> Occurs(b, sep, j)
  {
    if j + |sep| <= |b| {
      assert (a + b)[|a| + j..|a| + j + |sep|] == b[j..j + |sep|];
    }
  }

  lemma ScanTail(a: string, b: string, j: nat)
    requires Scan(a).Outside? && j <= |b|
    ensures Scan((a + b)[..|a| + j]) == Scan(b[..j])
  {
    assert (a + b)[..|a| + j] == a + b[..j];
    ScanConcat(a, b[..j]);
  }

  lemma OccursPrefix(suffix: string, m: nat, sep: string, j: nat)
    requires m <= |suffix| && Occurs(suffix[..m], sep, j)
    ensures Occurs(suffix, sep, j)
  {
    assert suffix[j..j + |sep|] == suffix[..m][j..j + |sep|];
  }

  lemma OccursInTail(x: string, suffix: string, m: nat, sep: string, i: nat)
    requires m <= |suffix| && |x| <= i <= |x| + m && sep != []
    requires Scan(x).Outside? && Occurs(x + suffix[..m], sep, i)
    ensures i - |x| < m && Occurs(suffix, sep, i - |x|)
    ensures Scan((x + suffix[..m])[..i]) == Scan(suffix[..i - |x|])
  {
    hide Scan, Occurs;
    OccursTail(x, suffix[..m], sep, i - |x|);
    OccursPrefix(suffix, m, sep, i - |x|);
    OccursFits(suffix[..m], sep, i - |x|);
    ScanTail(x, suffix[..m], i - |x|);
    assert suffix[..m][..i - |x|] == suffix[..i - |x|];
  }

  /** A clean piece that ends with a grouping symbol can be extended by text whose separators are all grouped. */
  lemma CleanExtend(seps: seq<string>, x: string, suffix: string, m: nat)
    requires Plain(seps) && Clean(seps, x) && Scan(x).Outside? && (x == [] || Groups(x[|x| - 1]))
    requires m <= |suffix|
    requires forall j, k :: 0 <= j < m && 0 <= k < |seps| && Occurs(suffix, seps[k], j) ==> Scan(suffix[..j]).Inside?
    ensures Clean(seps, x + suffix[..m])
  {
    hide Scan, Groups, Occurs;
    var y := x + suffix[..m];
    forall i, k | 0 <= i <= |y| && 0 <= k < |seps| && Occurs(y, seps[k], i)
      ensures Scan(y[..i]).Inside?
    {
      if i < |x| {
        NoStraddle(x, suffix[..m], seps[k], i);
        assert y[..i] == x[..i];
      } else {
        OccursInTail(x, suffix, m, seps[k], i);
      }
    }
  }

  lemma OccursFits(s: string, t: string, i: int)
    requires Occurs(s, t, i)
    ensures 0 <= i && i + |t| <= |s|
  {
  }

  lemma StuckTail(seps: seq<string>, a: string, b: string)
    requires Scan(a).Outside?
    ensures Stuck(seps, a + b) <==> Stuck(seps, b)
  {
    hide Scan, Occurs;
    var s := a + b;
    forall j | 0 <= j <= |b|
      ensures Scan(s[..|a| + j]) == Scan(b[..j])
    {
      ScanTail(a, b, j);
    }
    assert s[..|a|] == a;
    if Stuck(seps, s) {
      var i, k :| 0 <= i <= |s| && 0 <= k < |seps| && Occurs(s, seps[k], i) && NeverOut(s, i);
      assert i > |a|;
      OccursTail(a, b, seps[k], i - |a|);
      assert NeverOut(b, i - |a|) by {
        forall q | i - |a| <= q <= |b|
          ensures Scan(b[..q]).Inside?
        {
          assert Scan(s[..|a| + q]).Inside?;
        }
      }
    }
    if Stuck(seps, b) {
      var i, k :| 0 <= i <= |b| && 0 <= k < |seps| && Occurs(b, seps[k], i) && NeverOut(b, i);
      OccursTail(a, b, seps[k], i);
      assert NeverOut(s, |a| + i) by {
        forall q | |a| + i <= q <= |s|
          ensures Scan(s[..q]).Inside?
        {
          assert Scan(b[..q - |a|]).Inside?;
        }
      }
    }
  }

  /** The part of a term that came from the text to split: the first one starts with what it was given. */
  function Piece(term: string, terms: seq<Term>, j: nat): string
    requires j < |terms|
  {
    if j == 0 && term <= terms[0].text then terms[0].text[|term|..] else terms[j].text
  }

  predicate Indexed(seps: seq<string>, terms: seq<Term>) {
    forall t :: t in terms ==> -1 <= t.index < |seps|
  }

  /** Every piece is clean, and closed if a separator follows. */
  predicate Pieces(seps: seq<string>, term: string, terms: seq<Term>) {
    && (terms != [] ==> term <= terms[0].text)
    && forall j :: 0 <= j < |terms| ==>
         && Clean(seps, Piece(term, terms, j))
         && (terms[j].index >= 0 ==> Scan(Piece(term, terms, j)).Outside?)
  }

  /** What the current term has taken from the text since the last separator. */
  function Taken(term: string, current: string, terms: seq<Term>): string {
    if terms == [] && term <= current then current[|term|..] else current
  }

  /** Between two steps of the loop. */
  predicate Progress(seps: seq<string>, term: string, input: string, suffix: string, current: string, terms: seq<Term>)
    requires Indexed(seps, terms)
  {
    && (forall t :: t in terms ==> t.index >= 0)
    && (terms == [] ==> term <= current)
    && Joined(seps, terms) + current + suffix == term + input
    && (Plain(seps) ==>
         && Pieces(seps, term, terms)
         && (Stuck(seps, input) <==> Stuck(seps, suffix))
         && Closed(seps, Taken(term, current, terms)))
  }

  predicate Closed(seps: seq<string>, x: string) {
    Clean(seps, x) && Scan(x).Outside? && (x == [] || Groups(x[|x| - 1]))
  }

  lemma ProgressStart(seps: seq<string>, term: string, input: string)
    requires Real(seps)
    ensures Progress(seps, term, input, input, term, [])
  {
    assert term[|term|..] == [];
  }

  lemma JoinedPush(seps: seq<string>, terms: seq<Term>, t: Term)
    requires Indexed(seps, terms) && -1 <= t.index < |seps|
    ensures Indexed(seps, terms + [t])
    ensures Joined(seps, terms + [t]) == Joined(seps, terms) + t.text + (if t.index >= 0 then seps[t.index] else [])
  {
    assert (terms + [t])[..|terms|] == terms;
  }

  lemma PiecesPush(seps: seq<string>, term: string, terms: seq<Term>, current: string, u: string, index: int)
    requires Pieces(seps, term, terms) && (terms == [] ==> term <= current)
    requires Clean(seps, Taken(term, current, terms) + u)
    requires index >= 0 ==> Scan(Taken(term, current, terms) + u).Outside?
    ensures Pieces(seps, term, terms + [Term(current + u, index)])
  {
    hide Clean, Scan;
    var all := terms + [Term(current + u, index)];
    if terms == [] {
      assert Piece(term, all, 0) == Taken(term, current, terms) + u;
    }
    forall j | 0 <= j < |terms|
      ensures Piece(term, all, j) == Piece(term, terms, j)
    {
    }
  }

  /** A finished splitting: nothing lost, only the last term without a separator, no separator loose in a piece. */
  predicate Splitting(seps: seq<string>, term: string, input: string, terms: seq<Term>) {
    && Indexed(seps, terms)
    && Joined(seps, terms) == term + input
    && (forall j :: 0 <= j < |terms| - 1 ==> terms[j].index >= 0)
    && (forall t :: t in terms && t.index < 0 ==> t.text != [])
    && (Plain(seps) ==> Pieces(seps, term, terms))
  }

  /** A whole group moves to the current term. */
  lemma JumpKeeps(seps: seq<string>, term: string, input: string, suffix: string, current: string, terms: seq<Term>,
                  m: nat)
    requires Real(seps) && Indexed(seps, terms) && Progress(seps, term, input, suffix, current, terms)
    requires 0 < m <= |suffix| && Scan(suffix[..m]).Outside? && Groups(suffix[m - 1])
    requires forall j, k :: 0 <= j < m && 0 <= k < |seps| && Occurs(suffix, seps[k], j) ==> Scan(suffix[..j]).Inside?
    ensures Progress(seps, term, input, suffix[m..], current + suffix[..m], terms)
  {
    hide Scan, Groups, Occurs, Clean, Stuck, Joined, Pieces;
    var u, rest := suffix[..m], suffix[m..];
    assert suffix == u + rest;
    assert Joined(seps, terms) + current + suffix == Joined(seps, terms) + (current + u) + rest;
    var x := Taken(term, current, terms);
    assert Taken(term, current + u, terms) == x + u;
    if Plain(seps) {
      CleanExtend(seps, x, suffix, m);
      ScanConcat(x, u);
      StuckTail(seps, u, rest);
      assert (x + u)[|x + u| - 1] == suffix[m - 1];
    }
  }

  /** The same text, cut differently. */
  lemma Recut(a: string, current: string, u: string, sep: string, rest: string)
    ensures a + current + (u + sep + rest) == (a + (current + u) + sep) + "" + rest
  {
  }

  lemma CutAt(suffix: string, sep: string, p: nat)
    requires Occurs(suffix, sep, p)
    ensures p + |sep| <= |suffix| && suffix == suffix[..p] + sep + suffix[p + |sep|..]
  {
  }

  /** What stands before the first separator has no group, so nothing is stuck there. */
  lemma SplitPieces(seps: seq<string>, term: string, suffix: string, current: string, terms: seq<Term>, p: nat, k: nat)
    requires Plain(seps) && Pieces(seps, term, terms) && Closed(seps, Taken(term, current, terms))
    requires terms == [] ==> term <= current
    requires k < |seps| && Occurs(suffix, seps[k], p) && p + |seps[k]| <= |suffix|
    requires forall j, l :: 0 <= j < p && 0 <= l < |seps| ==> !Occurs(suffix, seps[l], j)
    requires forall j :: 0 <= j < p ==> !Opens(suffix[j])
    ensures Pieces(seps, term, terms + [Term(current + suffix[..p], k)])
    ensures Stuck(seps, suffix) <==> Stuck(seps, suffix[p + |seps[k]|..])
  {
    hide Scan, Occurs, Stuck, Pieces, Clean, Opens, Taken;
    var sep, u := seps[k], suffix[..p];
    forall c | c in sep
      ensures !Opens(c)
    {
      OpensGroups(c);
    }
    ScanPlain(u);
    ScanPlain(u + sep);
    CutAt(suffix, sep, p);
    CleanExtend(seps, Taken(term, current, terms), suffix, p);
    ScanConcat(Taken(term, current, terms), u);
    StuckTail(seps, u + sep, suffix[p + |sep|..]);
    PiecesPush(seps, term, terms, current, u, k);
  }

  lemma OpensGroups(c: char)
    ensures Opens(c) ==> Groups(c)
  {
  }

  /** A term ends at a separator. */
  lemma SplitKeeps(seps: seq<string>, term: string, input: string, suffix: string, current: string, terms: seq<Term>,
                   p: nat, k: nat)
    requires Real(seps) && Indexed(seps, terms) && Progress(seps, term, input, suffix, current, terms)
    requires k < |seps| && Occurs(suffix, seps[k], p) && p + |seps[k]| <= |suffix|
    requires forall j, l :: 0 <= j < p && 0 <= l < |seps| ==> !Occurs(suffix, seps[l], j)
    requires forall j :: 0 <= j < p ==> !Opens(suffix[j])
    ensures var done := terms + [Term(current + suffix[..p], k)];
      Indexed(seps, done) && Progress(seps, term, input, suffix[p + |seps[k]|..], "", done)
  {
    hide Scan, Occurs, Stuck, Pieces, Clean, Opens, Joined;
    JoinedPush(seps, terms, Term(current + suffix[..p], k));
    CutAt(suffix, seps[k], p);
    Recut(Joined(seps, terms), current, suffix[..p], seps[k], suffix[p + |seps[k]|..]);
    if Plain(seps) {
      SplitPieces(seps, term, suffix, current, terms, p, k);
    }
    NothingClean(seps);
  }

  lemma NothingClean(seps: seq<string>)
    requires Real(seps)
    ensures Closed(seps, "")
  {
  }

  lemma LastPiece(seps: seq<string>, term: string, suffix: string, current: string, terms: seq<Term>)
    requires Plain(seps) && Pieces(seps, term, terms) && Closed(seps, Taken(term, current, terms))
    requires terms == [] ==> term <= current
    requires forall j, k :: 0 <= j && 0 <= k < |seps| ==> !Occurs(suffix, seps[k], j)
    ensures Pieces(seps, term, terms + [Term(current + suffix, -1)])
  {
    hide Scan, Occurs, Pieces, Clean, Taken;
    CleanExtend(seps, Taken(term, current, terms), suffix, |suffix|);
    assert suffix[..|suffix|] == suffix;
    PiecesPush(seps, term, terms, current, suffix, -1);
  }

  /** No separator is left. */
  lemma LastTerm(seps: seq<string>, term: string, input: string, suffix: string, current: string, terms: seq<Term>)
    requires Real(seps) && Indexed(seps, terms) && Progress(seps, term, input, suffix, current, terms)
    requires current + suffix != []
    requires forall j, k :: 0 <= j && 0 <= k < |seps| ==> !Occurs(suffix, seps[k], j)
    ensures Splitting(seps, term, input, terms + [Term(current + suffix, -1)])
    ensures Plain(seps) ==> !Stuck(seps, input)
  {
    hide Scan, Occurs, Joined, Pieces, Clean;
    JoinedPush(seps, terms, Term(current + suffix, -1));
    if Plain(seps) {
      LastPiece(seps, term, suffix, current, terms);
    }
    assert Joined(seps, terms) + (current + suffix) + [] == Joined(seps, terms) + current + suffix;
  }

  /** Up to its closing symbol, everything from the group on is inside. */
  lemma GroupInside(suffix: string, g: nat, closing: nat)
    requires g + closing < |suffix| && (forall j :: 0 <= j < g ==> !Opens(suffix[j]))
    requires forall q :: 1 <= q <= closing ==> Scan(suffix[g..][..q]).Inside?
    ensures forall q :: g < q <= g + closing ==> Scan(suffix[..q]).Inside?
    ensures Scan(suffix[..g + closing + 1]) == Scan(suffix[g..][..closing + 1])
  {
    hide Scan, Opens;
    ScanPlain(suffix[..g]);
    assert suffix == suffix[..g] + suffix[g..];
    forall q | g < q <= g + closing + 1
      ensures Scan(suffix[..q]) == Scan(suffix[g..][..q - g])
    {
      ScanTail(suffix[..g], suffix[g..], q - g);
    }
  }

  lemma GroupNeverCloses(seps: seq<string>, suffix: string, g: nat, p: nat, k: nat)
    requires g < p <= |suffix| && (forall j :: 0 <= j < g ==> !Opens(suffix[j])) && NeverOut(suffix[g..], 1)
    requires k < |seps| && Occurs(suffix, seps[k], p)
    ensures Stuck(seps, suffix)
  {
    hide Scan, Opens, Occurs;
    ScanPlain(suffix[..g]);
    assert suffix == suffix[..g] + suffix[g..];
    forall q | p <= q <= |suffix|
      ensures Scan(suffix[..q]).Inside?
    {
      ScanTail(suffix[..g], suffix[g..], q - g);
    }
    assert NeverOut(suffix, p);
  }

  /** How an early abort ends: split once at the first loose separator, the rest untouched. */
  predicate SplitOnce(seps: seq<string>, term: string, input: string, terms: seq<Term>) {
    && Indexed(seps, terms) && |terms| >= 1 && terms[|terms| - 1].index == -1
    && Progress(seps, term, input, terms[|terms| - 1].text, "", terms[..|terms| - 1])
  }

  /** One step: jump over a group, split at a separator, or finish. */
  method SplitStep(abort: bool, suffix: string, current: string, seps: seq<string>, terms: seq<Term>,
                   ghost term: string, ghost input: string)
    returns (ok: bool, suffix': string, current': string, terms': seq<Term>, done: bool)
    requires Real(seps) && Indexed(seps, terms) && Progress(seps, term, input, suffix, current, terms)
    ensures Indexed(seps, terms')
    ensures ok && !done ==> |suffix'| < |suffix| && Progress(seps, term, input, suffix', current', terms')
    ensures ok && !done && abort ==> terms' == terms
    ensures ok && done && !abort ==> Splitting(seps, term, input, terms') && (Plain(seps) ==> !Stuck(seps, input))
    ensures ok && done && abort ==>
      || (Splitting(seps, term, input, terms') && |terms'| <= |terms| + 1 && (Plain(seps) ==> !Stuck(seps, input)))
      || (SplitOnce(seps, term, input, terms') && |terms'| == |terms| + 2)
    ensures !ok && Plain(seps) ==> Stuck(seps, input)
  {
    hide Scan, Occurs, Pieces, Clean, Stuck, Joined, Opens, Groups;
    ok, suffix', current', terms', done := true, suffix, current, terms, false;
    if suffix == "" {
      NothingOccurs(seps);
      if current != "" {
        LastTerm(seps, term, input, suffix, current, terms);
        assert current + suffix == current;
        terms' := terms + [Term(current, -1)];
      } else {
        NothingLeft(seps, term, input, terms);
      }
      done := true;
      return;
    }
    var p, k := FindSplit(suffix, seps);
    if k == -1 {
      LastTerm(seps, term, input, suffix, current, terms);
      terms' := terms + [Term(current + suffix, -1)];
      done := true;
      return;
    }
    OccursFits(suffix, seps[k], p);
    var g, symbol := FindGroup(suffix);
    if symbol >= 0 && g < p {
      var found, closing := GetClosingSymbol(suffix[g..], symbol);
      if !found {
        GroupNeverCloses(seps, suffix, g, p, k);
        ok := false;
        return;
      }
      GroupInside(suffix, g, closing);
      GroupCloses(symbol);
      assert suffix[g..][closing] == suffix[g + closing];
      JumpKeeps(seps, term, input, suffix, current, terms, g + closing + 1);
      current' := current + suffix[..g + closing + 1];
      suffix' := suffix[g + closing + 1..];
      return;
    }
    SplitKeeps(seps, term, input, suffix, current, terms, p, k);
    terms' := terms + [Term(current + suffix[..p], k)];
    if abort {
      ghost var first := terms';
      terms' := terms' + [Term(suffix[p + |seps[k]|..], -1)];
      assert terms'[..|terms'| - 1] == first;
      done := true;
      return;
    }
    suffix' := suffix[p + |seps[k]|..];
    current' := "";
  }

  lemma GroupCloses(symbol: nat)
    requires symbol < |GROUPS|
    ensures Groups(GROUPS[symbol].1)
  {
  }

  lemma NothingOccurs(seps: seq<string>)
    requires Real(seps)
    ensures forall j, k :: 0 <= j && 0 <= k < |seps| ==> !Occurs("", seps[k], j)
  {
  }

  lemma NothingLeft(seps: seq<string>, term: string, input: string, terms: seq<Term>)
    requires Real(seps) && Indexed(seps, terms) && Progress(seps, term, input, "", "", terms)
    ensures Splitting(seps, term, input, terms) && (Plain(seps) ==> !Stuck(seps, input))
  {
    hide Scan, Occurs, Pieces, Clean, Joined;
    NothingOccurs(seps);
    assert Joined(seps, terms) + "" + "" == Joined(seps, terms);
  }

  /** GetTerms: the separators of the source are single characters, or whole operators with an early abort. */
  method GetTerms(abort: bool, input: string, term: string, seps: seq<string>) returns (ok: bool, terms: seq<Term>)
    requires Real(seps)
    ensures Indexed(seps, terms)
    ensures ok && !abort ==> Splitting(seps, term, input, terms)
    ensures ok && abort ==>
      || (Splitting(seps, term, input, terms) && |terms| <= 1)
      || (SplitOnce(seps, term, input, terms) && |terms| == 2)
    ensures Plain(seps) && !abort ==> (ok <==> !Stuck(seps, input))
    ensures Plain(seps) && !ok ==> Stuck(seps, input)
  {
    hide Scan, Occurs, Pieces, Clean, Stuck, Joined, Progress, Splitting, SplitOnce;
    var current, suffix := term, input;
    terms := [];
    ProgressStart(seps, term, input);
    var done := false;
    while !done
      invariant Indexed(seps, terms)
      invariant !done ==> Progress(seps, term, input, suffix, current, terms) && (abort ==> terms == [])
      invariant done && !abort ==> Splitting(seps, term, input, terms) && (Plain(seps) ==> !Stuck(seps, input))
      invariant done && abort ==>
        || (Splitting(seps, term, input, terms) && |terms| <= 1)
        || (SplitOnce(seps, term, input, terms) && |terms| == 2)
      decreases if done then 0 else 1 + |suffix|
    {
      ok, suffix, current, terms, done := SplitStep(abort, suffix, current, seps, terms, term, input);
      if !ok {
        return;
      }
    }
    ok := true;
  }

  /** Distinct single characters that are not grouping symbols. */
  predicate Chars(seps: seq<string>) {
    && Plain(seps)
    && (forall k :: 0 <= k < |seps| ==> |seps[k]| == 1)
    && forall k, l :: 0 <= k < l < |seps| ==> seps[k] != seps[l]
  }

  /** A splitting, term by term. */
  predicate Tidy(seps: seq<string>, terms: seq<Term>) {
    && Indexed(seps, terms)
    && (forall j :: 0 <= j < |terms| - 1 ==> terms[j].index >= 0)
    && (forall t :: t in terms && t.index < 0 ==> t.text != [])
    && forall t :: t in terms ==> Clean(seps, t.text) && (t.index >= 0 ==> Scan(t.text).Outside?)
  }

  function Separator(seps: seq<string>, t: Term): string
    requires t.index < |seps|
  {
    if t.index >= 0 then seps[t.index] else []
  }

  lemma JoinedOne(seps: seq<string>, t: Term)
    requires -1 <= t.index < |seps|
    ensures Joined(seps, [t]) == t.text + Separator(seps, t)
  {
    NothingJoined(seps);
    JoinedPush(seps, [], t);
    hide Joined;
    assert [] + [t] == [t];
    assert "" + t.text == t.text;
  }

  lemma {:induction false} JoinedFront(seps: seq<string>, terms: seq<Term>)
    requires Indexed(seps, terms) && terms != []
    ensures Joined(seps, terms) == terms[0].text + Separator(seps, terms[0]) + Joined(seps, terms[1..])
  {
    hide Joined;
    var last := terms[|terms| - 1];
    if |terms| == 1 {
      JoinedOne(seps, last);
      NothingJoined(seps);
      assert terms == [last] && terms[1..] == [];
    } else {
      var most := terms[..|terms| - 1];
      JoinedFront(seps, most);
      JoinedPush(seps, most, last);
      JoinedPush(seps, most[1..], last);
      assert most + [last] == terms && most[1..] + [last] == terms[1..];
      Recut2(terms[0].text + Separator(seps, terms[0]), Joined(seps, most[1..]), last.text, Separator(seps, last));
    }
  }

  lemma Recut2(a: string, b: string, c: string, d: string)
    ensures (a + b) + c + d == a + (b + c + d)
  {
  }

  lemma NoLooseSeparator(seps: seq<string>, text: string, n: nat, k: nat)
    requires Clean(seps, text) && k < |seps| && |seps[k]| == 1
    ensures n < |text| && Scan(text[..n]).Outside? ==> text[n..n + 1] != seps[k]
  {
    hide Scan;
    assert n < |text| && text[n..n + 1] == seps[k] ==> Occurs(text, seps[k], n);
  }

  lemma SamePrefix(text: string, whole: string, n: nat)
    requires |text| <= |whole| && whole[..|text|] == text
    ensures n < |text| ==> text[..n] == whole[..n] && text[n..n + 1] == whole[n..n + 1]
  {
  }

  /** The first term of one splitting cannot be longer than that of another. */
  lemma FirstNotLonger(seps: seq<string>, s: seq<Term>, t: seq<Term>)
    requires Chars(seps) && Tidy(seps, s) && Tidy(seps, t) && s != [] && t != []
    requires Joined(seps, s) == Joined(seps, t)
    ensures |t[0].text| <= |s[0].text|
  {
    hide Joined, Scan, Plain, Clean;
    var whole, text := Joined(seps, s), t[0].text;
    var n := |s[0].text|;
    JoinedFront(seps, s);
    JoinedFront(seps, t);
    assert whole[..|text|] == text;
    if s[0].index < 0 {
      assert |s| == 1;
      NothingJoined(seps);
      assert |whole| == n;
    } else {
      assert s[0] in s && t[0] in t;
      assert whole[..n] == s[0].text;
      assert whole[n..n + 1] == seps[s[0].index];
      NoLooseSeparator(seps, text, n, s[0].index);
      SamePrefix(text, whole, n);
    }
  }

  lemma NothingJoined(seps: seq<string>)
    ensures Joined(seps, []) == ""
  {
  }

  /** There is only one way to split a text so that no separator is loose in a term. */
  lemma {:induction false} OneSplitting(seps: seq<string>, s: seq<Term>, t: seq<Term>)
    requires Chars(seps) && Tidy(seps, s) && Tidy(seps, t) && Joined(seps, s) == Joined(seps, t)
    ensures s == t
    decreases |s|
  {
    hide Joined, Scan, Clean, Plain;
    NothingJoined(seps);
    if s != [] {
      JoinedFront(seps, s);
    }
    if t != [] {
      JoinedFront(seps, t);
    }
    if s != [] && t != [] {
      FirstNotLonger(seps, s, t);
      FirstNotLonger(seps, t, s);
      var whole := Joined(seps, s);
      var n := |s[0].text|;
      assert s[0].text == whole[..n] == t[0].text;
      SameSeparator(seps, s, t);
      var m := n + |Separator(seps, s[0])|;
      assert Joined(seps, s[1..]) == whole[m..] == Joined(seps, t[1..]);
      OneSplitting(seps, s[1..], t[1..]);
      assert s == [s[0]] + s[1..] && t == [t[0]] + t[1..];
    }
  }

  lemma SameSeparator(seps: seq<string>, s: seq<Term>, t: seq<Term>)
    requires Chars(seps) && Tidy(seps, s) && Tidy(seps, t) && s != [] && t != []
    requires Joined(seps, s) == Joined(seps, t) && s[0].text == t[0].text
    ensures s[0].index == t[0].index
  {
    hide Scan, Clean, Plain;
    JoinedFront(seps, s);
    JoinedFront(seps, t);
    NothingJoined(seps);
    hide Joined;
    var whole := Joined(seps, s);
    var n := |s[0].text|;
    if s[0].index >= 0 {
      assert whole[n..n + 1] == seps[s[0].index];
    } else {
      assert |whole| == n;
    }
    if t[0].index >= 0 {
      assert whole[n..n + 1] == seps[t[0].index];
    } else {
      assert |whole| == n;
    }
  }

  lemma SplittingIsTidy(seps: seq<string>, input: string, terms: seq<Term>)
    requires Plain(seps) && Splitting(seps, "", input, terms)
    ensures Tidy(seps, terms) && Joined(seps, terms) == input
  {
    hide Clean, Scan, Joined;
    forall t | t in terms
      ensures Clean(seps, t.text) && (t.index >= 0 ==> Scan(t.text).Outside?)
    {
      var j :| 0 <= j < |terms| && terms[j] == t;
      assert Piece("", terms, j) == t.text;
    }
    assert "" + input == input;
  }

  const ADDITIVE: seq<string> := ["+", "-"]
  const MULTIPLICATIVE: seq<string> := ["*", "/"]

  lemma OperatorsAreChars()
    ensures Chars(ADDITIVE) && Chars(MULTIPLICATIVE)
    ensures TwoChars(ADDITIVE, '+', '-') && TwoChars(MULTIPLICATIVE, '*', '/')
  {
  }

  // ----- where the terms end

  /** The position behind term j: where its separator stands, or the end of the text. */
  function EndOf(terms: seq<Term>, j: nat): nat
    requires j < |terms|
  {
    if j == 0 then |terms[0].text| else EndOf(terms, j - 1) + 1 + |terms[j].text|
  }

  /** Term j is a part of the input, and its index tells the character behind it. */
  predicate CutOut(input: string, terms: seq<Term>, j: nat, first: char, second: char)
    requires j < |terms|
  {
    var t, end := terms[j], EndOf(terms, j);
    && |t.text| <= end <= |input| && input[end - |t.text|..end] == t.text
    && (t.index == -1 || t.index == 0 || t.index == 1)
    && (t.index == 0 ==> end < |input| && input[end] == first)
    && (t.index == 1 ==> end < |input| && input[end] == second)
    && (t.index == -1 ==> j == |terms| - 1 && end == |input|)
    && (t.index >= 0 ==> Scan(input[..end]).Outside? && (j == |terms| - 1 ==> end + 1 == |input|))
  }

  predicate SeparatorAt(terms: seq<Term>, j: nat, i: nat) {
    j < |terms| && terms[j].index >= 0 && EndOf(terms, j) == i
  }

  /** The terms are cut out of the input, and end at every instance of the two characters outside the groups. */
  ghost predicate SplitBy(input: string, terms: seq<Term>, first: char, second: char, from: nat) {
    && (terms == [] ==> input == "")
    && (forall j: nat :: j < |terms| ==> CutOut(input, terms, j, first, second))
    && forall i: nat :: from <= i < |input| && (input[i] == first || input[i] == second) && Scan(input[..i]).Outside?
         ==> exists j: nat :: SeparatorAt(terms, j, i)
  }

  lemma {:induction false} EndOfPrefix(terms: seq<Term>, n: nat, j: nat)
    requires j < n <= |terms|
    ensures EndOf(terms[..n], j) == EndOf(terms, j)
  {
    if j > 0 {
      EndOfPrefix(terms, n, j - 1);
    }
  }

  /** Two separators of one character each. */
  predicate TwoChars(seps: seq<string>, first: char, second: char) {
    |seps| == 2 && seps[0] == [first] && seps[1] == [second] && !Groups(first) && !Groups(second)
  }

  function CharOf(t: Term, first: char, second: char): string {
    if t.index == 0 then [first] else if t.index == 1 then [second] else []
  }

  lemma LastTidy(seps: seq<string>, terms: seq<Term>, first: char, second: char)
    requires TwoChars(seps, first, second) && Tidy(seps, terms) && terms != []
    ensures var n := |terms| - 1;
      && Tidy(seps, terms[..n]) && Indexed(seps, terms) && Indexed(seps, terms[..n])
      && (terms[n].index == -1 || terms[n].index == 0 || terms[n].index == 1)
      && Separator(seps, terms[n]) == CharOf(terms[n], first, second)
      && Clean(seps, terms[n].text) && (terms[n].index >= 0 ==> Scan(terms[n].text).Outside?)
      && forall j :: 0 <= j < n ==> terms[j].index >= 0
  {
    hide Clean, Scan, Groups;
    assert terms[|terms| - 1] in terms;
  }

  lemma JoinedLast(seps: seq<string>, terms: seq<Term>)
    requires Indexed(seps, terms) && terms != []
    ensures var n := |terms| - 1;
      Joined(seps, terms) == Joined(seps, terms[..n]) + terms[n].text + Separator(seps, terms[n])
  {
    var n := |terms| - 1;
    assert terms[n] in terms;
    JoinedPush(seps, terms[..n], terms[n]);
    assert terms[..n] + [terms[n]] == terms;
    hide Joined;
  }

  /** Where the last term starts. */
  function StartOfLast(terms: seq<Term>): nat
    requires terms != []
  {
    var n := |terms| - 1;
    if n == 0 then 0 else EndOf(terms[..n], n - 1) + 1
  }

  lemma EndOfLast(terms: seq<Term>)
    requires terms != []
    ensures EndOf(terms, |terms| - 1) == StartOfLast(terms) + |terms[|terms| - 1].text|
  {
    var n := |terms| - 1;
    if n > 0 {
      EndOfPrefix(terms, n, n - 1);
    }
  }

  /** Terms that all have a separator leave the scanner outside, and end where the text does. */
  lemma {:induction false} AllEnded(seps: seq<string>, terms: seq<Term>, first: char, second: char)
    requires TwoChars(seps, first, second) && Tidy(seps, terms)
    requires forall j :: 0 <= j < |terms| ==> terms[j].index >= 0
    ensures Scan(Joined(seps, terms)).Outside?
    ensures terms != [] ==> |Joined(seps, terms)| == EndOf(terms, |terms| - 1) + 1
  {
    if terms == [] {
      NothingJoined(seps);
    } else {
      hide *;
      NothingJoined(seps);
      LastTidy(seps, terms, first, second);
      PlainChars(seps, first, second);
      var n := |terms| - 1;
      AllEnded(seps, terms[..n], first, second);
      JoinedLast(seps, terms);
      EndOfLast(terms);
      StartIs(seps, terms);
      EndedStep(Joined(seps, terms[..n]), terms[n].text, if terms[n].index == 0 then first else second);
      CharIs(terms[n], first, second);
    }
  }

  lemma PlainChars(seps: seq<string>, first: char, second: char)
    requires TwoChars(seps, first, second)
    ensures !Groups(first) && !Groups(second)
  {
  }

  lemma CharIs(t: Term, first: char, second: char)
    requires t.index == -1 || t.index == 0 || t.index == 1
    ensures t.index == 0 ==> CharOf(t, first, second) == [first]
    ensures t.index == 1 ==> CharOf(t, first, second) == [second]
    ensures t.index == -1 ==> CharOf(t, first, second) == []
  {
  }

  lemma StartIs(seps: seq<string>, terms: seq<Term>)
    requires terms != [] && Indexed(seps, terms[..|terms| - 1])
    requires var most := terms[..|terms| - 1]; most != [] ==> |Joined(seps, most)| == EndOf(most, |most| - 1) + 1
    ensures StartOfLast(terms) == |Joined(seps, terms[..|terms| - 1])|
  {
    hide EndOf;
    NothingJoined(seps);
  }

  lemma EndedStep(start: string, text: string, c: char)
    requires Scan(start).Outside? && Scan(text).Outside? && !Groups(c)
    ensures Scan(start + text + [c]).Outside? && |start + text + [c]| == |start| + |text| + 1
  {
    ScanOver(start, text);
    ScanSeparator(start + text, c);
  }

  lemma ScanOver(a: string, b: string)
    requires Scan(a).Outside? && Scan(b).Outside?
    ensures Scan(a + b).Outside?
  {
    ScanConcat(a, b);
  }

  lemma ScanSeparator(a: string, c: char)
    requires Scan(a).Outside? && !Groups(c)
    ensures Scan(a + [c]).Outside?
  {
    assert (a + [c])[..|a|] == a;
  }

  lemma CutOutExtends(input: string, whole: string, terms: seq<Term>, n: nat, j: nat, first: char, second: char)
    requires j < n < |terms| && input <= whole && CutOut(input, terms[..n], j, first, second)
    requires forall k :: 0 <= k < n ==> terms[k].index >= 0
    ensures CutOut(whole, terms, j, first, second)
  {
    hide Scan;
    EndOfPrefix(terms, n, j);
    var end := EndOf(terms, j);
    assert whole[..end] == input[..end];
    assert terms[..n][j] == terms[j];
  }

  /** The last term and what stands before it. */
  ghost predicate LastTermOf(seps: seq<string>, terms: seq<Term>, start: string, input: string, first: char,
                             second: char)
    requires terms != []
  {
    var n := |terms| - 1;
    var last := terms[n];
    && start + last.text <= input && Scan(start).Outside? && Clean(seps, last.text)
    && EndOf(terms, n) == |start| + |last.text|
    && (last.index == -1 || last.index == 0 || last.index == 1)
    && (last.index == -1 ==> |input| == |start| + |last.text|)
    && (last.index >= 0 ==> Scan(last.text).Outside? && |input| == |start| + |last.text| + 1)
    && (last.index == 0 ==> input[|start| + |last.text|] == first)
    && (last.index == 1 ==> input[|start| + |last.text|] == second)
    && (forall j :: 0 <= j < n ==> terms[j].index >= 0)
  }

  lemma Sliced(a: string, b: string, c: string)
    ensures a <= a + b + c && a + b <= a + b + c && |a + b + c| == |a| + |b| + |c|
    ensures (a + b + c)[|a|..|a| + |b|] == b && (c != [] ==> (a + b + c)[|a| + |b|] == c[0])
  {
  }

  lemma LastTermIs(seps: seq<string>, terms: seq<Term>, first: char, second: char)
    requires TwoChars(seps, first, second) && Tidy(seps, terms) && terms != []
    ensures Tidy(seps, terms[..|terms| - 1])
    ensures LastTermOf(seps, terms, Joined(seps, terms[..|terms| - 1]), Joined(seps, terms), first, second)
  {
    hide Clean, Scan, Groups, Joined, EndOf, StartOfLast, Tidy, TwoChars, Separator, CharOf, LastTermOf;
    var n := |terms| - 1;
    LastTidy(seps, terms, first, second);
    AllEnded(seps, terms[..n], first, second);
    JoinedLast(seps, terms);
    EndOfLast(terms);
    StartIs(seps, terms);
    SplitLast(seps, terms, Joined(seps, terms[..n]), Joined(seps, terms), first, second);
  }

  lemma SplitLast(seps: seq<string>, terms: seq<Term>, start: string, input: string, first: char, second: char)
    requires terms != []
    requires var last := terms[|terms| - 1];
      && input == start + last.text + CharOf(last, first, second) && Scan(start).Outside? && Clean(seps, last.text)
      && (last.index == -1 || last.index == 0 || last.index == 1)
      && (last.index >= 0 ==> Scan(last.text).Outside?)
      && EndOf(terms, |terms| - 1) == |start| + |last.text|
    requires forall j :: 0 <= j < |terms| - 1 ==> terms[j].index >= 0
    ensures LastTermOf(seps, terms, start, input, first, second)
  {
    hide Clean, Scan, EndOf;
    var n := |terms| - 1;
    Sliced(start, terms[n].text, CharOf(terms[n], first, second));
  }

  lemma LastCutOut(seps: seq<string>, terms: seq<Term>, start: string, input: string, first: char, second: char)
    requires terms != [] && LastTermOf(seps, terms, start, input, first, second)
    ensures CutOut(input, terms, |terms| - 1, first, second)
  {
    hide Clean, Scan, Groups, EndOf;
    var text := terms[|terms| - 1].text;
    assert input[..|start| + |text|] == start + text;
    assert input[|start|..|start| + |text|] == (start + text)[|start|..];
    if terms[|terms| - 1].index >= 0 {
      ScanOver(start, text);
    }
  }

  /** The scanner restarts with every term. */
  lemma ScanInLast(start: string, text: string, input: string, i: nat)
    requires Scan(start).Outside? && |start| <= i <= |start| + |text| && start + text <= input
    ensures Scan(input[..i]) == Scan(text[..i - |start|])
  {
    ScanConcat(start, text[..i - |start|]);
    assert (start + text)[..i] == start + text[..i - |start|];
    assert input[..i] == (start + text)[..i];
  }

  lemma LastHasNone(seps: seq<string>, start: string, text: string, input: string, i: nat, first: char, second: char)
    requires TwoChars(seps, first, second) && Clean(seps, text) && Scan(start).Outside?
    requires start + text <= input && |start| <= i < |start| + |text|
    requires input[i] == first || input[i] == second
    ensures !Scan(input[..i]).Outside?
  {
    hide Scan, Clean, Groups;
    ScanInLast(start, text, input, i);
    var n, k := i - |start|, if input[i] == first then 0 else 1;
    assert input[i] == (start + text)[i] == text[n];
    assert text[n..n + 1] == [text[n]] == seps[k];
    NoLooseSeparator(seps, text, n, k);
  }

  lemma {:induction false} TidyIsSplit(seps: seq<string>, terms: seq<Term>, first: char, second: char)
    requires TwoChars(seps, first, second) && Tidy(seps, terms)
    ensures SplitBy(Joined(seps, terms), terms, first, second, 0)
  {
    if terms == [] {
      NothingJoined(seps);
    } else {
      var most := terms[..|terms| - 1];
      LastTermIs(seps, terms, first, second);
      TidyIsSplit(seps, most, first, second);
      SplitStepBack(seps, terms, Joined(seps, most), Joined(seps, terms), first, second);
    }
  }

  /** One term more. */
  lemma SplitStepBack(seps: seq<string>, terms: seq<Term>, start: string, input: string, first: char, second: char)
    requires TwoChars(seps, first, second)
    requires terms != [] && LastTermOf(seps, terms, start, input, first, second)
    requires SplitBy(start, terms[..|terms| - 1], first, second, 0)
    ensures SplitBy(input, terms, first, second, 0)
  {
    var n := |terms| - 1;
    LastCutOut(seps, terms, start, input, first, second);
    hide Clean, Scan, Groups, CutOut, SeparatorAt, LastTermOf, TwoChars, EndOf;
    forall j: nat | j < |terms|
      ensures CutOut(input, terms, j, first, second)
    {
      if j < n {
        EarlierCutOut(seps, terms, start, input, j, first, second);
      }
    }
    forall i: nat | i < |input| && (input[i] == first || input[i] == second) && Scan(input[..i]).Outside?
      ensures exists j: nat :: SeparatorAt(terms, j, i)
    {
      SeparatorFound(seps, terms, start, input, i, first, second);
    }
  }

  lemma EarlierCutOut(seps: seq<string>, terms: seq<Term>, start: string, input: string, j: nat, first: char,
                      second: char)
    requires terms != [] && LastTermOf(seps, terms, start, input, first, second) && j < |terms| - 1
    requires SplitBy(start, terms[..|terms| - 1], first, second, 0)
    ensures CutOut(input, terms, j, first, second)
  {
    hide Clean, Scan, Groups, CutOut, SeparatorAt, EndOf;
    assert start <= input by {
      assert input[..|start|] == (start + terms[|terms| - 1].text)[..|start|];
    }
    CutOutExtends(start, input, terms, |terms| - 1, j, first, second);
  }

  lemma SeparatorFound(seps: seq<string>, terms: seq<Term>, start: string, input: string, i: nat, first: char,
                       second: char)
    requires TwoChars(seps, first, second)
    requires terms != [] && LastTermOf(seps, terms, start, input, first, second)
    requires SplitBy(start, terms[..|terms| - 1], first, second, 0)
    requires i < |input| && (input[i] == first || input[i] == second) && Scan(input[..i]).Outside?
    ensures exists j: nat :: SeparatorAt(terms, j, i)
  {
    hide Clean, Scan, Groups, CutOut, TwoChars, EndOf;
    var n := |terms| - 1;
    var text := terms[n].text;
    if i < |start| {
      assert start == input[..|start|] by {
        assert input[..|start|] == (start + text)[..|start|];
      }
      assert start[i] == input[i] && start[..i] == input[..i];
      var j: nat :| SeparatorAt(terms[..n], j, i);
      EndOfPrefix(terms, n, j);
      assert SeparatorAt(terms, j, i);
    } else if i < |start| + |text| {
      LastHasNone(seps, start, text, input, i, first, second);
    } else {
      assert SeparatorAt(terms, n, i);
    }
  }

  /** GetMultiplicativeTerms: the only splitting of the input, or a group that is left open before an operator. */
  method GetMultiplicativeTerms(input: string) returns (ok: bool, terms: seq<Term>)
    ensures ok <==> !Stuck(MULTIPLICATIVE, input)
    ensures ok ==> Tidy(MULTIPLICATIVE, terms) && Joined(MULTIPLICATIVE, terms) == input
    ensures ok ==> SplitBy(input, terms, '*', '/', 0)
  {
    hide Scan, Occurs, Pieces, Clean, Stuck, Joined, Tidy, Splitting, SplitBy;
    OperatorsAreChars();
    ok, terms := GetTerms(false, input, "", MULTIPLICATIVE);
    if ok {
      SplittingIsTidy(MULTIPLICATIVE, input, terms);
      TidyIsSplit(MULTIPLICATIVE, terms, '*', '/');
    }
  }

  /** GetAdditiveTerms: a leading minus belongs to the first term. */
  method GetAdditiveTerms(input: string) returns (ok: bool, terms: seq<Term>)
    ensures ok && (input == "" || input[0] != '-') ==> Tidy(ADDITIVE, terms) && Joined(ADDITIVE, terms) == input
    ensures ok && input != "" && input[0] == '-' ==>
      terms != [] && "-" <= terms[0].text && Indexed(ADDITIVE, terms) && Joined(ADDITIVE, terms) == input
      && Tidy(ADDITIVE, Unsigned(terms)) && Joined(ADDITIVE, Unsigned(terms)) == input[1..]
    ensures ok <==> !Stuck(ADDITIVE, if input != "" && input[0] == '-' then input[1..] else input)
    ensures ok ==> SplitBy(input, terms, '+', '-', if input != "" && input[0] == '-' then 1 else 0)
  {
    hide Scan, Occurs, Pieces, Clean, Stuck, Joined, Tidy, Splitting, SplitBy;
    OperatorsAreChars();
    if input != "" && input[0] == '-' {
      ok, terms := GetTerms(false, input[1..], "-", ADDITIVE);
      if ok {
        SplittingUnsigned(ADDITIVE, input[1..], terms);
        assert "-" + input[1..] == input;
        TidyIsSplit(ADDITIVE, Unsigned(terms), '+', '-');
        SignedSplit(input, terms, '+', '-');
      }
      return;
    }
    ok, terms := GetTerms(false, input, "", ADDITIVE);
    if ok {
      SplittingIsTidy(ADDITIVE, input, terms);
      TidyIsSplit(ADDITIVE, terms, '+', '-');
    }
  }

  /** The terms without the minus the first one starts with; nothing is left of a lone minus. */
  function Unsigned(terms: seq<Term>): seq<Term>
    requires terms != [] && "-" <= terms[0].text
  {
    if terms[0].text == "-" && terms[0].index < 0 then terms[1..]
    else [Term(terms[0].text[1..], terms[0].index)] + terms[1..]
  }

  lemma UnsignedPieces(seps: seq<string>, terms: seq<Term>, j: nat)
    requires terms != [] && "-" <= terms[0].text && !(terms[0].text == "-" && terms[0].index < 0) && j < |terms|
    ensures Unsigned(terms)[j].text == Piece("-", terms, j) && Unsigned(terms)[j].index == terms[j].index
  {
  }

  lemma SignInFront(text: string, separator: string, rest: string)
    ensures ("-" + text) + separator + rest == "-" + (text + separator + rest)
  {
  }

  lemma JoinedUnsigned(seps: seq<string>, terms: seq<Term>)
    requires Indexed(seps, terms) && terms != [] && "-" <= terms[0].text
    requires terms[0].text == "-" && terms[0].index < 0 ==> |terms| == 1
    ensures Indexed(seps, Unsigned(terms)) && Joined(seps, terms) == "-" + Joined(seps, Unsigned(terms))
  {
    NothingJoined(seps);
    JoinedFront(seps, terms);
    hide Joined;
    var plain := Unsigned(terms);
    if terms[0].text != "-" || terms[0].index >= 0 {
      JoinedFront(seps, plain);
      assert plain[1..] == terms[1..];
      SignInFront(plain[0].text, Separator(seps, terms[0]), Joined(seps, terms[1..]));
      assert terms[0].text == "-" + plain[0].text;
    }
  }

  lemma TidyUnsigned(seps: seq<string>, terms: seq<Term>)
    requires Indexed(seps, terms) && terms != [] && Pieces(seps, "-", terms)
    requires forall j :: 0 <= j < |terms| - 1 ==> terms[j].index >= 0
    requires forall t :: t in terms[1..] && t.index < 0 ==> t.text != []
    ensures Tidy(seps, Unsigned(terms))
  {
    hide Clean, Scan, Piece;
    var plain := Unsigned(terms);
    if !(terms[0].text == "-" && terms[0].index < 0) {
      forall j | 0 <= j < |plain|
        ensures Clean(seps, plain[j].text) && (plain[j].index >= 0 ==> Scan(plain[j].text).Outside?)
      {
        UnsignedPieces(seps, terms, j);
      }
    }
  }

  lemma SplittingUnsigned(seps: seq<string>, input: string, terms: seq<Term>)
    requires Plain(seps) && Splitting(seps, "-", input, terms)
    ensures terms != [] && "-" <= terms[0].text
    ensures Joined(seps, terms) == "-" + input
    ensures Tidy(seps, Unsigned(terms)) && Joined(seps, Unsigned(terms)) == input
    ensures terms[0].text == "-" && terms[0].index < 0 ==> |terms| == 1 && terms[0].index == -1
  {
    hide Joined, Plain, Clean, Scan, Piece, Tidy, Unsigned;
    NothingJoined(seps);
    assert terms != [] by {
      assert |"-" + input| > 0;
    }
    JoinedUnsigned(seps, terms);
    TidyUnsigned(seps, terms);
    SignDrops(Joined(seps, Unsigned(terms)), input);
  }

  lemma SignDrops(a: string, b: string)
    requires "-" + a == "-" + b
    ensures a == b
  {
    assert ("-" + a)[1..] == a && ("-" + b)[1..] == b;
  }

  lemma {:induction false} EndOfSigned(terms: seq<Term>, j: nat)
    requires terms != [] && "-" <= terms[0].text && !(terms[0].text == "-" && terms[0].index < 0) && j < |terms|
    ensures EndOf(terms, j) == EndOf(Unsigned(terms), j) + 1 && (j == 0 ==> EndOf(terms, j) == |terms[0].text|)
  {
    if j > 0 {
      EndOfSigned(terms, j - 1);
    }
  }

  lemma ScanSigned(input: string, i: nat)
    requires input != "" && input[0] == '-' && 1 <= i <= |input|
    ensures Scan(input[..i]) == Scan(input[1..][..i - 1])
  {
    assert Scan("-").Outside? by {
      ScanPlain("-");
    }
    ScanConcat("-", input[1..i]);
    assert input[..i] == "-" + input[1..i] && input[1..][..i - 1] == input[1..i];
  }

  lemma DropFirst(input: string, from: nat, end: nat)
    requires 1 <= from <= end <= |input|
    ensures input[1..][from - 1..end - 1] == input[from..end]
    ensures end < |input| ==> input[1..][end - 1] == input[end]
  {
  }

  lemma SignedCutOut(input: string, terms: seq<Term>, j: nat, first: char, second: char)
    requires input != "" && input[0] == '-' && terms != [] && "-" <= terms[0].text && j < |terms|
    requires !(terms[0].text == "-" && terms[0].index < 0)
    requires CutOut(input[1..], Unsigned(terms), j, first, second)
    ensures CutOut(input, terms, j, first, second)
  {
    hide Scan, EndOf;
    EndOfSigned(terms, j);
    ScanSigned(input, EndOf(terms, j));
    var end, n := EndOf(terms, j), |Unsigned(terms)[j].text|;
    DropFirst(input, end - n, end);
    if j == 0 {
      assert terms[0].text == "-" + Unsigned(terms)[0].text == input[..end];
    }
  }

  /** The leading minus is no separator: everything behind it is split as before. */
  lemma SignedSplit(input: string, terms: seq<Term>, first: char, second: char)
    requires input != "" && input[0] == '-' && terms != [] && "-" <= terms[0].text
    requires terms[0].text == "-" && terms[0].index < 0 ==> |terms| == 1 && terms[0].index == -1
    requires SplitBy(input[1..], Unsigned(terms), first, second, 0)
    ensures SplitBy(input, terms, first, second, 1)
  {
    if terms[0].text == "-" && terms[0].index < 0 {
      assert input == ['-'] + input[1..];
      OnlyMinus(terms, first, second);
    } else {
      hide Scan, EndOf, CutOut, SeparatorAt;
      forall j: nat | j < |terms|
        ensures CutOut(input, terms, j, first, second)
      {
        SignedCutOut(input, terms, j, first, second);
      }
      forall i: nat | 1 <= i < |input| && (input[i] == first || input[i] == second) && Scan(input[..i]).Outside?
        ensures exists j: nat :: SeparatorAt(terms, j, i)
      {
        ScanSigned(input, i);
        var j: nat :| SeparatorAt(Unsigned(terms), j, i - 1);
        SignedSeparator(terms, j, i);
      }
    }
  }

  lemma OnlyMinus(terms: seq<Term>, first: char, second: char)
    requires |terms| == 1 && terms[0].text == "-" && terms[0].index == -1
    ensures SplitBy("-", terms, first, second, 1)
  {
  }

  lemma SignedSeparator(terms: seq<Term>, j: nat, i: nat)
    requires terms != [] && "-" <= terms[0].text && !(terms[0].text == "-" && terms[0].index < 0) && i >= 1
    requires SeparatorAt(Unsigned(terms), j, i - 1)
    ensures SeparatorAt(terms, j, i)
  {
    EndOfSigned(terms, j);
  }

  /** A text between an opener and its closer is one group: nothing in it is outside. */
  ghost predicate OneGroup(open: char, text: string, close: char) {
    var s := [open] + text + [close];
    Scan(s).Outside? && forall q :: 1 <= q <= 1 + |text| ==> Scan(s[..q]).Inside?
  }

  lemma {:induction false} InsideText(open: char, text: string, s: string)
    requires Opens(open) && [open] + text <= s && open !in text && CloserOf(open) !in text
    ensures forall q :: 1 <= q <= 1 + |text| ==> Scan(s[..q]) == Inside(open, 1)
    decreases |text|
  {
    if text == [] {
      NothingScanned(s);
      assert s[..1] == [open] && [open][..0] == "";
    } else {
      var n := |text|;
      assert s[..1 + n] == [open] + text;
      assert s[..n] == [open] + text[..n - 1];
      InsideText(open, text[..n - 1], s);
      ScanPush(s, n);
      assert s[n] == text[n - 1];
    }
  }

  lemma GroupOf(open: char, text: string, close: char)
    requires Opens(open) && close == CloserOf(open) && open !in text && close !in text
    ensures OneGroup(open, text, close)
  {
    var s := [open] + text + [close];
    InsideText(open, text, s);
    ScanPush(s, 1 + |text|);
    assert s[..2 + |text|] == s;
  }

  /** The four kinds of groups. */
  lemma FourKinds(text: string)
    ensures '(' !in text && ')' !in text ==> OneGroup('(', text, ')')
    ensures '{' !in text && '}' !in text ==> OneGroup('{', text, '}')
    ensures '[' !in text && ']' !in text ==> OneGroup('[', text, ']')
    ensures '|' !in text ==> OneGroup('|', text, '|')
  {
    if '(' !in text && ')' !in text {
      GroupOf('(', text, ')');
    }
    if '{' !in text && '}' !in text {
      GroupOf('{', text, '}');
    }
    if '[' !in text && ']' !in text {
      GroupOf('[', text, ']');
    }
    if '|' !in text {
      GroupOf('|', text, '|');
    }
    hide OneGroup;
  }

  /** The zeros of the fifth pair count: a NUL character opens a group that only another one closes. */
  lemma NulOpensGroup(rest: string)
    requires forall c :: c in rest ==> c != '\0'
    ensures Stuck(ADDITIVE, "\0+" + rest)
  {
    var s := "\0+" + rest;
    NothingScanned(s);
    ScanPush(s, 0);
    assert s[1..2] == ADDITIVE[0];
    forall q | 1 <= q <= |s|
      ensures Scan(s[..q]).Inside?
    {
      forall j | 1 <= j < q
        ensures s[j] != '\0'
      {
        assert j >= 2 ==> s[j] in rest;
      }
      StaysInside(s, '\0', q);
    }
    assert NeverOut(s, 1);
  }
}
