/**
 detail::scan_keyword of utils/date.h: reads, ignoring case, the longest text that still
 could be a keyword, and finds the keyword that is exactly the text read.
 */
module KeywordScan {
  import opened DateText

  datatype Status = DoesntMatch | MightMatch | DoesMatch

  /** toupper in the "C" locale */
  function Upper(c: char): char {
    if 'a' <= c <= 'z' then c - 32 as char else c
  }

  /** Exactly the two cases of a letter are taken for the same. */
  lemma SameLetter(c: char, d: char)
    ensures Upper(c) == Upper(d)
            <==> || c == d
                 || ('A' <= c <= 'Z' && d as int == c as int + 32)
                 || ('A' <= d <= 'Z' && c as int == d as int + 32)
    ensures !('a' <= c <= 'z') ==> Upper(c) == c
  {
  }

  /** The 26 letters are folded, each with its own capital. */
  lemma LettersFold(i: nat)
    requires i < 26
    ensures var small, capital := "abcdefghijklmnopqrstuvwxyz", "ABCDEFGHIJKLMNOPQRSTUVWXYZ";
            Upper(small[i]) == Upper(capital[i]) == capital[i]
  {
  }

  /** Length of the longest prefix of kw, ignoring case, that the text has at p. */
  function Matched(kw: string, t: string, p: nat): (n: nat)
    requires p <= |t|
    ensures n <= |kw| && p + n <= |t|
    ensures forall i :: 0 <= i < n ==> Upper(kw[i]) == Upper(t[p + i])
    ensures n < |kw| && p + n < |t| ==> Upper(kw[n]) != Upper(t[p + n])
    decreases |kw|
  {
    if kw != [] && p < |t| && Upper(kw[0]) == Upper(t[p]) then 1 + Matched(kw[1..], t, p + 1) else 0
  }

  /** The whole keyword, and nothing beyond it, is what n characters at p spell. */
  predicate Spells(kw: string, t: string, p: nat, n: nat)
    requires p <= |t|
  {
    |kw| == n && Matched(kw, t, p) == n
  }

  /** n is how far the text agrees with the keyword it agrees with longest. */
  ghost predicate LongestMatch(kws: seq<string>, t: string, p: nat, n: nat)
    requires p <= |t|
  {
    && (forall k :: 0 <= k < |kws| ==> Matched(kws[k], t, p) <= n)
    && (n == 0 || exists k :: 0 <= k < |kws| && Matched(kws[k], t, p) == n)
  }

  function Advance(s: Status, kw: string, indx: nat, c: char): Status
    requires s == MightMatch ==> indx < |kw|
  {
    if s != MightMatch then s
    else if Upper(c) != Upper(kw[indx]) then DoesntMatch
    else if |kw| == indx + 1 then DoesMatch
    else MightMatch
  }

  function Prune(s: Status, kw: string, indx: nat): Status {
    if s == DoesMatch && |kw| != indx + 1 then DoesntMatch else s
  }

  /** Status of a keyword once n characters are read. */
  function StatusAt(kw: string, t: string, p: nat, n: nat): Status
    requires p <= |t|
  {
    if Matched(kw, t, p) < n then DoesntMatch
    else if |kw| > n then MightMatch
    else DoesMatch
  }

  function Count(s: seq<Status>, x: Status): nat {
    multiset(s)[x]
  }

  lemma CountChange(s: seq<Status>, k: nat, x: Status, y: Status)
    requires k < |s|
    ensures Count(s[k := x], y) == Count(s, y) - (if s[k] == y then 1 else 0) + (if x == y then 1 else 0)
  {
  }

  lemma TwoOf(s: seq<Status>, i: nat, j: nat)
    requires i < |s| && j < |s| && i != j && s[i] != DoesntMatch && s[j] != DoesntMatch
    ensures Count(s, MightMatch) + Count(s, DoesMatch) >= 2
  {
    var s' := s[i := DoesntMatch];
    CountChange(s, i, DoesntMatch, MightMatch);
    CountChange(s, i, DoesntMatch, DoesMatch);
    assert s'[j] in multiset(s');
  }

  lemma NoneOf(s: seq<Status>, x: Status)
    ensures Count(s, x) == 0 <==> x !in s
  {
  }

  /** One more character: what Advance and Prune make of the statuses. */
  lemma StatusStep(kw: string, t: string, p: nat, n: nat)
    requires p + n < |t|
    ensures StatusAt(kw, t, p, n) == MightMatch ==> n < |kw|
    ensures Prune(Advance(StatusAt(kw, t, p, n), kw, n, t[p + n]), kw, n) == StatusAt(kw, t, p, n + 1)
  {
  }

  ghost predicate StatusesAt(st: seq<Status>, kws: seq<string>, t: string, p: nat, n: nat)
    requires p <= |t| && |st| == |kws|
  {
    forall k :: 0 <= k < |kws| ==> st[k] == StatusAt(kws[k], t, p, n)
  }

  /** The counters of the code: entries that might match and entries that do. */
  ghost predicate Counted(st: seq<Status>, mights: nat, does: nat) {
    mights == Count(st, MightMatch) && does == Count(st, DoesMatch)
  }

  lemma UpdateCounted(st: seq<Status>, k: nat, x: Status, mights: nat, does: nat)
    requires k < |st| && Counted(st, mights, does)
    ensures st[k] == MightMatch ==> mights > 0
    ensures st[k] == DoesMatch ==> does > 0
    ensures Counted(st[k := x], mights - (if st[k] == MightMatch then 1 else 0) + (if x == MightMatch then 1 else 0),
                    does - (if st[k] == DoesMatch then 1 else 0) + (if x == DoesMatch then 1 else 0))
  {
    CountChange(st, k, x, MightMatch);
    CountChange(st, k, x, DoesMatch);
    NoneOf(st, MightMatch);
    NoneOf(st, DoesMatch);
  }

  lemma AllMight(n: nat)
    ensures Counted(seq(n, _ => MightMatch), n, 0)
  {
    if n > 0 {
      var s := seq(n - 1, _ => MightMatch);
      AllMight(n - 1);
      assert seq(n, _ => MightMatch) == s + [MightMatch];
    }
  }

  /** The initial statuses: "" matches already, everything else might. */
  method InitStatuses(kws: seq<string>) returns (status: array<Status>, nMightMatch: nat, nDoesMatch: nat)
    ensures fresh(status) && status.Length == |kws|
    ensures forall k :: 0 <= k < |kws| ==> status[k] == if kws[k] == "" then DoesMatch else MightMatch
    ensures Counted(status[..], nMightMatch, nDoesMatch)
  {
    hide Counted;
    status := new Status[|kws|](_ => MightMatch);
    nMightMatch, nDoesMatch := |kws|, 0;
    assert status[..] == seq(|kws|, _ => MightMatch);
    AllMight(|kws|);
    for k := 0 to |kws|
      invariant forall j :: 0 <= j < k ==> status[j] == if kws[j] == "" then DoesMatch else MightMatch
      invariant forall j :: k <= j < |kws| ==> status[j] == MightMatch
      invariant Counted(status[..], nMightMatch, nDoesMatch)
    {
      if kws[k] == "" {
        UpdateCounted(status[..], k, DoesMatch, nMightMatch, nDoesMatch);
        ghost var was := status[..];
        status[k] := DoesMatch;
        assert status[..] == was[k := DoesMatch];
        nMightMatch, nDoesMatch := nMightMatch - 1, nDoesMatch + 1;
      }
    }
  }

  lemma AdvanceBy(s: Status, kw: string, indx: nat, c: char)
    requires s == MightMatch ==> indx < |kw|
    ensures var a := Advance(s, kw, indx, c);
            && (s != MightMatch ==> a == s)
            && (s == MightMatch && Upper(c) != Upper(kw[indx]) ==> a == DoesntMatch)
            && (s == MightMatch && Upper(c) == Upper(kw[indx]) ==>
                  a == if |kw| == indx + 1 then DoesMatch else MightMatch)
  {
  }

  /** A keyword among the first k that might match goes on matching. */
  ghost predicate GoesOn(before: seq<Status>, after: seq<Status>, k: nat)
    requires k <= |before| == |after|
  {
    exists j :: 0 <= j < k && before[j] == MightMatch && after[j] != DoesntMatch
  }

  lemma GoesOnStep(before: seq<Status>, after: seq<Status>, after': seq<Status>, k: nat)
    requires k < |before| == |after| == |after'| && after' == after[k := after'[k]]
    ensures GoesOn(before, after', k + 1)
            <==> GoesOn(before, after, k) || (before[k] == MightMatch && after'[k] != DoesntMatch)
  {
    if GoesOn(before, after, k) {
      var j :| 0 <= j < k && before[j] == MightMatch && after[j] != DoesntMatch;
      assert after'[j] == after[j];
    }
  }

  /** Tests every keyword that might match against the character c. */
  method TestCharacter(kws: seq<string>, status: array<Status>, indx: nat, c: char, mights: nat, does: nat)
    returns (consume: bool, nMightMatch: nat, nDoesMatch: nat)
    requires status.Length == |kws| && Counted(status[..], mights, does)
    requires forall k :: 0 <= k < |kws| && status[k] == MightMatch ==> indx < |kws[k]|
    modifies status
    ensures forall k :: 0 <= k < |kws| ==> old(status[k]) == MightMatch ==> indx < |kws[k]|
    ensures forall k :: 0 <= k < |kws| ==> status[k] == Advance(old(status[k]), kws[k], indx, c)
    ensures consume <==> GoesOn(old(status[..]), status[..], |kws|)
    ensures Counted(status[..], nMightMatch, nDoesMatch)
  {
    hide Advance, Upper, Counted, GoesOn;
    consume := false;
    nMightMatch, nDoesMatch := mights, does;
    ghost var before := status[..];
    NoneGoesOn(before);
    for k := 0 to |kws|
      invariant forall j :: 0 <= j < k ==> status[j] == Advance(before[j], kws[j], indx, c)
      invariant forall j :: k <= j < |kws| ==> status[j] == before[j]
      invariant consume <==> GoesOn(before, status[..], k)
      invariant Counted(status[..], nMightMatch, nDoesMatch)
    {
      ghost var was := status[..];
      UpdateCounted(was, k, Advance(was[k], kws[k], indx, c), nMightMatch, nDoesMatch);
      AdvanceBy(was[k], kws[k], indx, c);
      if status[k] == MightMatch {
        if Upper(c) == Upper(kws[k][indx]) {
          consume := true;
          if |kws[k]| == indx + 1 {
            status[k] := DoesMatch;
            nMightMatch, nDoesMatch := nMightMatch - 1, nDoesMatch + 1;
          }
        } else {
          status[k] := DoesntMatch;
          nMightMatch := nMightMatch - 1;
        }
      }
      assert status[..] == was[k := Advance(was[k], kws[k], indx, c)];
      GoesOnStep(before, was, status[..], k);
    }
  }

  lemma NoneGoesOn(before: seq<Status>)
    ensures !GoesOn(before, before, 0)
  {
  }

  /** Drops matches that the character just consumed has gone beyond. */
  method DropShorter(kws: seq<string>, status: array<Status>, indx: nat, mights: nat,
                     does: nat) returns (nDoesMatch: nat)
    requires status.Length == |kws| && Counted(status[..], mights, does)
    modifies status
    ensures forall k :: 0 <= k < |kws| ==> status[k] == Prune(old(status[k]), kws[k], indx)
    ensures Counted(status[..], mights, nDoesMatch)
  {
    nDoesMatch := does;
    for k := 0 to |kws|
      invariant forall j :: 0 <= j < k ==> status[j] == Prune(old(status[j]), kws[j], indx)
      invariant forall j :: k <= j < |kws| ==> status[j] == old(status[j])
      invariant Counted(status[..], mights, nDoesMatch)
    {
      ghost var was := status[..];
      UpdateCounted(was, k, Prune(was[k], kws[k], indx), mights, nDoesMatch);
      if status[k] == DoesMatch && |kws[k]| != indx + 1 {
        status[k] := DoesntMatch;
        nDoesMatch := nDoesMatch - 1;
      }
      assert status[..] == was[k := Prune(was[k], kws[k], indx)];
    }
  }

  /** Nothing that might match is left: the text read is the longest match. */
  lemma NoMightIsLongest(st: seq<Status>, kws: seq<string>, t: string, p: nat, n: nat)
    requires p <= |t| && |st| == |kws| && StatusesAt(st, kws, t, p, n) && MightMatch !in st
    requires n == 0 || exists k :: 0 <= k < |kws| && Matched(kws[k], t, p) >= n
    ensures LongestMatch(kws, t, p, n)
  {
    forall k | 0 <= k < |kws|
      ensures Matched(kws[k], t, p) <= n
    {
      assert st[k] == StatusAt(kws[k], t, p, n);
    }
  }

  /** A round that consumed: one more character of every keyword still in play. */
  lemma ConsumedRound(before: seq<Status>, tested: seq<Status>, after: seq<Status>, kws: seq<string>, t: string,
                      p: nat, n: nat)
    requires p + n < |t| && |before| == |tested| == |after| == |kws| && StatusesAt(before, kws, t, p, n)
    requires forall k :: 0 <= k < |kws| && before[k] == MightMatch ==> n < |kws[k]|
    requires forall k :: 0 <= k < |kws| ==> tested[k] == Advance(before[k], kws[k], n, t[p + n])
    requires forall k :: 0 <= k < |kws| ==> after[k] == Prune(tested[k], kws[k], n)
    ensures StatusesAt(after, kws, t, p, n + 1)
    ensures forall k :: 0 <= k < |kws| && before[k] == MightMatch && tested[k] != DoesntMatch ==>
            Matched(kws[k], t, p) >= n + 1
  {
    forall k | 0 <= k < |kws|
      ensures after[k] == StatusAt(kws[k], t, p, n + 1)
    {
      StatusStep(kws[k], t, p, n);
    }
  }

  /** With a single entry left in play, it is the one just tested, and nothing is stale. */
  lemma NothingStale(before: seq<Status>, tested: seq<Status>, kws: seq<string>, n: nat, c: char, live: nat,
                     mights: nat, does: nat)
    requires |before| == |tested| == |kws| && live < |kws| && before[live] == MightMatch && tested[live] != DoesntMatch
    requires forall k :: 0 <= k < |kws| && before[k] == MightMatch ==> n < |kws[k]|
    requires forall k :: 0 <= k < |kws| ==> tested[k] == Advance(before[k], kws[k], n, c)
    requires Counted(tested, mights, does) && mights + does <= 1
    ensures forall k :: 0 <= k < |kws| ==> tested[k] == Prune(tested[k], kws[k], n)
  {
    forall k | 0 <= k < |kws|
      ensures tested[k] == Prune(tested[k], kws[k], n)
    {
      if k != live && tested[k] == DoesMatch {
        TwoOf(tested, k, live);
      }
    }
  }

  /** A round that did not consume: no keyword goes on, and the matches stay. */
  lemma StoppedRound(before: seq<Status>, tested: seq<Status>, kws: seq<string>, t: string, p: nat, n: nat)
    requires p + n < |t| && |before| == |tested| == |kws| && StatusesAt(before, kws, t, p, n)
    requires forall k :: 0 <= k < |kws| && before[k] == MightMatch ==> n < |kws[k]|
    requires forall k :: 0 <= k < |kws| ==> tested[k] == Advance(before[k], kws[k], n, t[p + n])
    requires forall k :: 0 <= k < |kws| && before[k] == MightMatch ==> tested[k] == DoesntMatch
    requires n == 0 || exists k :: 0 <= k < |kws| && Matched(kws[k], t, p) >= n
    ensures MightMatch !in tested && LongestMatch(kws, t, p, n)
    ensures forall k :: 0 <= k < |kws| ==> (tested[k] == DoesMatch <==> Spells(kws[k], t, p, n))
  {
    forall k | 0 <= k < |kws|
      ensures Matched(kws[k], t, p) <= n && (tested[k] == DoesMatch <==> Spells(kws[k], t, p, n))
    {
      StatusStep(kws[k], t, p, n);
      assert before[k] == StatusAt(kws[k], t, p, n);
    }
  }

  /** What holds of the statuses and counters after n characters have been read. */
  ghost predicate Reading(st: seq<Status>, kws: seq<string>, mights: nat, does: nat, t: string, p: nat, n: nat)
    requires p <= |t| && |st| == |kws|
  {
    && Counted(st, mights, does)
    && (forall k :: 0 <= k < |kws| ==> (st[k] == DoesMatch <==> Spells(kws[k], t, p, n)))
    && (mights > 0 ==> StatusesAt(st, kws, t, p, n))
    && (mights == 0 ==> LongestMatch(kws, t, p, n))
    && (n == 0 || exists k :: 0 <= k < |kws| && Matched(kws[k], t, p) >= n)
  }

  lemma StatusesRead(st: seq<Status>, kws: seq<string>, mights: nat, does: nat, t: string, p: nat, n: nat)
    requires p <= |t| && |st| == |kws| && Counted(st, mights, does) && StatusesAt(st, kws, t, p, n)
    requires n == 0 || exists k :: 0 <= k < |kws| && Matched(kws[k], t, p) >= n
    ensures Reading(st, kws, mights, does, t, p, n)
  {
    NoneOf(st, MightMatch);
    if mights == 0 {
      NoMightIsLongest(st, kws, t, p, n);
    }
  }

  lemma MightHasMore(st: seq<Status>, kws: seq<string>, t: string, p: nat, n: nat)
    requires p <= |t| && |st| == |kws| && StatusesAt(st, kws, t, p, n)
    ensures forall k :: 0 <= k < |kws| && st[k] == MightMatch ==> n < |kws[k]|
  {
  }

  lemma EndIsLongest(kws: seq<string>, t: string, p: nat)
    requires p <= |t|
    requires |t| == p || exists k :: 0 <= k < |kws| && Matched(kws[k], t, p) >= |t| - p
    ensures LongestMatch(kws, t, p, |t| - p)
  {
  }

  /** One round of the scan on the character after the n read so far; `consume` says it is to be read too. */
  method Round(kws: seq<string>, status: array<Status>, n: nat, c: char, mights: nat, does: nat, ghost t: string,
               ghost p: nat)
    returns (consume: bool, nMightMatch: nat, nDoesMatch: nat)
    requires status.Length == |kws| && p + n < |t| && c == t[p + n]
    requires mights > 0 && Reading(status[..], kws, mights, does, t, p, n)
    modifies status
    ensures Reading(status[..], kws, nMightMatch, nDoesMatch, t, p, if consume then n + 1 else n)
    ensures !consume ==> nMightMatch == 0
  {
    hide StatusAt, Spells, LongestMatch, Upper, Counted, Matched;
    ghost var before := status[..];
    MightHasMore(before, kws, t, p, n);
    consume, nMightMatch, nDoesMatch := TestCharacter(kws, status, n, c, mights, does);
    ghost var tested := status[..];
    if consume {
      ghost var k :| 0 <= k < |kws| && before[k] == MightMatch && tested[k] != DoesntMatch;
      if nMightMatch + nDoesMatch > 1 {
        nDoesMatch := DropShorter(kws, status, n, nMightMatch, nDoesMatch);
      } else {
        NothingStale(before, tested, kws, n, c, k, nMightMatch, nDoesMatch);
      }
      ConsumedRound(before, tested, status[..], kws, t, p, n);
      StatusesRead(status[..], kws, nMightMatch, nDoesMatch, t, p, n + 1);
    } else {
      StoppedRound(before, tested, kws, t, p, n);
      NoMights(tested, nMightMatch, nDoesMatch);
    }
  }

  lemma NoMights(st: seq<Status>, mights: nat, does: nat)
    requires Counted(st, mights, does) && MightMatch !in st
    ensures mights == 0
  {
    NoneOf(st, MightMatch);
  }

  /** The first keyword that matches, or the number of keywords. */
  method FirstMatch(status: array<Status>) returns (found: nat)
    ensures found <= status.Length && forall k :: 0 <= k < found ==> status[k] != DoesMatch
    ensures found < status.Length ==> status[found] == DoesMatch
  {
    found := 0;
    while found < status.Length && status[found] != DoesMatch
      invariant found <= status.Length && forall k :: 0 <= k < found ==> status[k] != DoesMatch
    {
      found := found + 1;
    }
  }

  lemma InitIsReading(st: seq<Status>, kws: seq<string>, mights: nat, does: nat, t: string, p: nat)
    requires p <= |t| && |st| == |kws| && Counted(st, mights, does)
    requires forall k :: 0 <= k < |kws| ==> st[k] == if kws[k] == "" then DoesMatch else MightMatch
    ensures Reading(st, kws, mights, does, t, p, 0)
  {
    StatusesRead(st, kws, mights, does, t, p, 0);
  }

  /** The result of the scan: n characters read, and the keyword found, or the number of keywords. */
  ghost predicate Scanned(kws: seq<string>, t: string, p: nat, n: nat, found: nat)
    requires p <= |t|
  {
    && LongestMatch(kws, t, p, n) && found <= |kws|
    && (found < |kws| ==> Spells(kws[found], t, p, n))
    && forall k :: 0 <= k < found && found <= |kws| ==> !Spells(kws[k], t, p, n)
  }

  /** On a stream that cannot be read only empty keywords can be found. */
  ghost predicate FirstEmpty(kws: seq<string>, found: nat) {
    && found <= |kws| && (found < |kws| ==> kws[found] == "")
    && forall k :: 0 <= k < found && found <= |kws| ==> kws[k] != ""
  }

  lemma MightsAreLonger(st: seq<Status>, kws: seq<string>, mights: nat, does: nat)
    requires |st| == |kws| && Counted(st, mights, does)
    requires forall k :: 0 <= k < |kws| ==> st[k] == if kws[k] == "" then DoesMatch else MightMatch
    ensures mights > 0 <==> exists k :: 0 <= k < |kws| && kws[k] != ""
  {
    NoneOf(st, MightMatch);
    if k :| 0 <= k < |kws| && kws[k] != "" {
      assert st[k] in st;
    }
  }

  lemma EndRead(st: seq<Status>, kws: seq<string>, mights: nat, does: nat, t: string, p: nat)
    requires p <= |t| && |st| == |kws| && Reading(st, kws, mights, does, t, p, |t| - p)
    ensures LongestMatch(kws, t, p, |t| - p)
  {
    EndIsLongest(kws, t, p);
  }

  /** The statuses, once the scan is over */
  lemma ReadingTells(st: seq<Status>, kws: seq<string>, mights: nat, does: nat, t: string, p: nat, n: nat, found: nat)
    requires p <= |t| && |st| == |kws| && Reading(st, kws, mights, does, t, p, n)
    requires mights == 0 || LongestMatch(kws, t, p, n)
    requires found <= |st| && (forall k :: 0 <= k < found ==> st[k] != DoesMatch)
    requires found < |st| ==> st[found] == DoesMatch
    ensures Scanned(kws, t, p, n, found)
  {
  }

  /** scan_keyword, on a stream in any state. Even where nothing can be read an empty keyword is found, but the stream
      is left failed if there are others. */
  method ScanKeyword(s: InStream, kws: seq<string>) returns (found: nat)
    requires s.Valid()
    modifies s
    ensures s.Valid() && found <= |kws|
    ensures old(s.Good()) ==> old(s.pos) <= s.pos && Scanned(kws, s.text, old(s.pos), s.pos - old(s.pos), found)
    ensures old(s.Good()) ==> (s.fail <==> found == |kws|)
    ensures !old(s.Good()) ==> s.pos == old(s.pos) && s.eof == old(s.eof) && FirstEmpty(kws, found)
    ensures !old(s.Good()) ==> (s.fail <==> old(s.fail) || found == |kws| || exists k :: 0 <= k < |kws| && kws[k] != "")
  {
    hide StatusAt, StatusesAt, Counted, Spells, LongestMatch, Reading, Scanned;
    ghost var t, p, good := s.text, s.pos, s.Good();
    var status, nMightMatch, nDoesMatch := InitStatuses(kws);
    InitIsReading(status[..], kws, nMightMatch, nDoesMatch, t, p);
    MightsAreLonger(status[..], kws, nMightMatch, nDoesMatch);
    ghost var others := nMightMatch > 0;
    var indx := 0;
    while !s.fail && nMightMatch > 0
      invariant s.Valid() && p <= s.pos && fresh(status) && status.Length == |kws|
      invariant !good ==> s.pos == p && !s.Good() && s.eof == old(s.eof) && s.fail == old(s.fail)
      invariant !good ==> others == (nMightMatch > 0)
      invariant !good ==> forall k :: 0 <= k < |kws| ==> (status[k] == DoesMatch <==> kws[k] == "")
      invariant good ==> s.Good() && Reading(status[..], kws, nMightMatch, nDoesMatch, t, p, s.pos - p)
      invariant good && nMightMatch > 0 ==> s.pos == p + indx
      decreases |t| - s.pos, nMightMatch
    {
      var ic := s.Peek();
      if ic.None? {
        if good {
          EndRead(status[..], kws, nMightMatch, nDoesMatch, t, p);
        }
        break;
      }
      var consume;
      consume, nMightMatch, nDoesMatch := Round(kws, status, indx, ic.value, nMightMatch, nDoesMatch, t, p);
      if consume {
        s.Get();
      }
      indx := indx + 1;
    }
    found := FirstMatch(status);
    if good {
      ReadingTells(status[..], kws, nMightMatch, nDoesMatch, t, p, s.pos - p, found);
    }
    if found == |kws| {
      s.fail := true;
    }
  }

  /** The keyword returned spells the text read, no longer keyword is a prefix of the input,
      and the scan succeeds exactly when some keyword is as long as the longest agreement. */
  lemma FoundIsLongest(kws: seq<string>, t: string, p: nat, n: nat, k: nat)
    requires p <= |t| && LongestMatch(kws, t, p, n) && k < |kws| && Matched(kws[k], t, p) == |kws[k]|
    ensures |kws[k]| <= n && p + n <= |t|
    ensures Spells(kws[k], t, p, n) <==> |kws[k]| == n
    ensures |kws[k]| == n ==> forall i :: 0 <= i < n ==> Upper(kws[k][i]) == Upper(t[p + i])
  {
  }

  /** How far the scan reads is determined by the keywords and the text alone. */
  lemma LongestMatchUnique(kws: seq<string>, t: string, p: nat, n: nat, n': nat)
    requires p <= |t| && LongestMatch(kws, t, p, n) && LongestMatch(kws, t, p, n')
    ensures n == n'
  {
  }

  /** And so is what it finds: no text and list of keywords has two results. */
  lemma ScanDetermined(kws: seq<string>, t: string, p: nat, n: nat, found: nat, n': nat, found': nat)
    requires p <= |t| && Scanned(kws, t, p, n, found) && Scanned(kws, t, p, n', found')
    ensures n == n' && found == found'
  {
    hide LongestMatch, Spells;
    LongestMatchUnique(kws, t, p, n, n');
  }

  /** A keyword at the start of the input can be missed: "sund" starts with "Sun", but "Sunday" agrees further. */
  lemma ShorterKeywordMissed()
    ensures var kws, t := ["Sunday", "Sun"], "sund";
            && Matched(kws[1], t, 0) == |kws[1]| && LongestMatch(kws, t, 0, 4)
            && forall k :: 0 <= k < |kws| ==> !Spells(kws[k], t, 0, 4)
  {
    var kws, t := ["Sunday", "Sun"], "sund";
    assert Matched("Sun", t, 0) == 3;
    assert kws[0] == "Sunday" && kws[1] == "Sun";
    assert Matched("Sunday", t, 0) == 4;
  }
}
