/**
 For which lists of keywords detail::scan_keyword of utils/date.h finds a keyword whenever the
 input starts with one, and which of the lists it is used with are such.
 */
module KeywordLists {
  import opened KeywordScan

  /** Equal, ignoring case. */
  predicate SameText(a: string, b: string) {
    |a| == |b| && forall i :: 0 <= i < |a| ==> Upper(a[i]) == Upper(b[i])
  }

  predicate Begins(u: string, v: string) {
    |u| <= |v| && SameText(u, v[..|u|])
  }

  ghost predicate HasKeyword(kws: seq<string>, w: string) {
    exists k :: 0 <= k < |kws| && SameText(kws[k], w)
  }

  /** On no input that starts with a keyword does the scan fail. */
  ghost predicate NeverMisses(kws: seq<string>) {
    forall t: string, p: nat, n: nat, found: nat, k: nat ::
      p <= |t| && Scanned(kws, t, p, n, found) && k < |kws| && Matched(kws[k], t, p) == |kws[k]| ==> found < |kws|
  }

  /** Every prefix of a keyword that is at least as long as a keyword it begins with is a keyword itself. */
  ghost predicate Closed(kws: seq<string>) {
    forall i, j :: 0 <= i < |kws| && 0 <= j < |kws| && Begins(kws[i], kws[j]) ==> ClosedBetween(kws, |kws[i]|, kws[j])
  }

  ghost predicate ClosedBetween(kws: seq<string>, m: nat, v: string) {
    forall n :: m <= n <= |v| ==> HasKeyword(kws, v[..n])
  }

  /** The text agrees with a keyword as far as they are equal. */
  lemma MatchedIf(kw: string, t: string, p: nat, m: nat)
    requires m <= |kw| && p + m <= |t| && forall i :: 0 <= i < m ==> Upper(kw[i]) == Upper(t[p + i])
    ensures Matched(kw, t, p) >= m
  {
  }

  /** A keyword that starts the input, another that agrees with it for n characters, and a third that is these n */
  lemma PrefixSpells(kws: seq<string>, t: string, p: nat, n: nat, j: nat, k: nat)
    requires p <= |t| && j < |kws| && k < |kws| && Matched(kws[j], t, p) >= n && SameText(kws[k], kws[j][..n])
    ensures Spells(kws[k], t, p, n)
  {
    hide Upper;
    forall i | 0 <= i < n
      ensures Upper(kws[k][i]) == Upper(t[p + i])
    {
      assert Upper(kws[k][i]) == Upper(kws[j][..n][i]);
    }
    MatchedIf(kws[k], t, p, n);
  }

  lemma BothBegin(u: string, v: string, t: string, p: nat, n: nat)
    requires p <= |t| && Matched(u, t, p) == |u| <= n && Matched(v, t, p) >= n
    ensures Begins(u, v)
  {
    hide Upper;
  }

  lemma ClosedNeverMisses(kws: seq<string>, t: string, p: nat, n: nat, found: nat, i: nat)
    requires Closed(kws) && p <= |t| && Scanned(kws, t, p, n, found) && i < |kws| && Matched(kws[i], t, p) == |kws[i]|
    ensures found < |kws|
  {
    hide Upper, Matched, Spells;
    assert Matched(kws[i], t, p) <= n;
    var j := if n == 0 then i else LongestKeyword(kws, t, p, n);
    BothBegin(kws[i], kws[j], t, p, n);
    assert ClosedBetween(kws, |kws[i]|, kws[j]);
    assert HasKeyword(kws, kws[j][..n]);
    var k :| 0 <= k < |kws| && SameText(kws[k], kws[j][..n]);
    PrefixSpells(kws, t, p, n, j, k);
  }

  ghost function LongestKeyword(kws: seq<string>, t: string, p: nat, n: nat): (j: nat)
    requires p <= |t| && LongestMatch(kws, t, p, n) && n > 0
    ensures j < |kws| && Matched(kws[j], t, p) == n
  {
    var j :| 0 <= j < |kws| && Matched(kws[j], t, p) == n;
    j
  }

  lemma SpellsIsText(kw: string, t: string)
    ensures Spells(kw, t, 0, |t|) ==> SameText(kw, t)
  {
  }

  /** Where a prefix is missing, it is the input on which the scan fails. */
  lemma MissingPrefix(kws: seq<string>, i: nat, j: nat, n: nat)
    requires i < |kws| && j < |kws| && Begins(kws[i], kws[j]) && |kws[i]| <= n <= |kws[j]|
    requires !HasKeyword(kws, kws[j][..n])
    ensures var t := kws[j][..n];
            Scanned(kws, t, 0, n, |kws|) && Matched(kws[i], t, 0) == |kws[i]|
  {
    hide Upper;
    var t := kws[j][..n];
    MatchedIf(kws[j], t, 0, n);
    forall a | 0 <= a < |kws[i]|
      ensures Upper(kws[i][a]) == Upper(t[a])
    {
      assert Upper(kws[i][a]) == Upper(kws[j][..|kws[i]|][a]);
    }
    MatchedIf(kws[i], t, 0, |kws[i]|);
    forall k | 0 <= k < |kws|
      ensures !Spells(kws[k], t, 0, n)
    {
      SpellsIsText(kws[k], t);
      assert SameText(kws[k], t) ==> HasKeyword(kws, t);
    }
  }

  /** The scan finds a keyword on every input that starts with one exactly for the lists that are closed. */
  lemma NeverMissesExactly(kws: seq<string>)
    ensures NeverMisses(kws) <==> Closed(kws)
  {
    hide Scanned, Matched;
    if Closed(kws) {
      forall t: string, p: nat, n: nat, found: nat, k: nat
        | p <= |t| && Scanned(kws, t, p, n, found) && k < |kws| && Matched(kws[k], t, p) == |kws[k]|
        ensures found < |kws|
      {
        ClosedNeverMisses(kws, t, p, n, found, k);
      }
    } else {
      var i, j :| 0 <= i < |kws| && 0 <= j < |kws| && Begins(kws[i], kws[j]) && !ClosedBetween(kws, |kws[i]|, kws[j]);
      var n :| |kws[i]| <= n <= |kws[j]| && !HasKeyword(kws, kws[j][..n]);
      MissingPrefix(kws, i, j, n);
    }
  }

  // ---------------------------------------------------------------------------
  // The lists of the code
  // ---------------------------------------------------------------------------

  const WEEKDAY_NAMES: seq<string> :=
    ["Sunday", "Monday", "Tuesday", "Wednesday", "Thursday", "Friday", "Saturday",
     "Sun", "Mon", "Tue", "Wed", "Thu", "Fri", "Sat"]

  const MONTH_NAMES: seq<string> :=
    ["January", "February", "March", "April", "May", "June", "July", "August", "September", "October", "November",
     "December", "Jan", "Feb", "Mar", "Apr", "May", "Jun", "Jul", "Aug", "Sep", "Oct", "Nov", "Dec"]

  const AMPM_NAMES: seq<string> := ["AM", "PM"]

  /** Of the three lists of the code only AM and PM are closed; "Sund" and "Januar" are missed. */
  lemma ListsOfTheCode()
    ensures NeverMisses(AMPM_NAMES) && !NeverMisses(WEEKDAY_NAMES) && !NeverMisses(MONTH_NAMES)
  {
    hide NeverMisses;
    NeverMissesExactly(AMPM_NAMES);
    NeverMissesExactly(WEEKDAY_NAMES);
    NeverMissesExactly(MONTH_NAMES);
    AmPmClosed();
    WeekdaysNotClosed();
    MonthsNotClosed();
  }

  lemma AmPmClosed()
    ensures Closed(AMPM_NAMES)
  {
    forall i, j | 0 <= i < 2 && 0 <= j < 2 && Begins(AMPM_NAMES[i], AMPM_NAMES[j])
      ensures ClosedBetween(AMPM_NAMES, |AMPM_NAMES[i]|, AMPM_NAMES[j])
    {
      assert AMPM_NAMES[j][..2] == AMPM_NAMES[j];
      assert SameText(AMPM_NAMES[j], AMPM_NAMES[j][..2]);
    }
  }

  lemma WeekdaysNotClosed()
    ensures !Closed(WEEKDAY_NAMES)
  {
    hide Upper;
    assert WEEKDAY_NAMES[0] == "Sunday" && WEEKDAY_NAMES[7] == "Sun" && "Sunday"[..3] == "Sun";
    assert forall k :: 0 <= k < |WEEKDAY_NAMES| ==> |WEEKDAY_NAMES[k]| != 4;
    assert !HasKeyword(WEEKDAY_NAMES, "Sunday"[..4]);
    assert !ClosedBetween(WEEKDAY_NAMES, 3, "Sunday");
  }

  lemma MonthsNotClosed()
    ensures !Closed(MONTH_NAMES)
  {
    assert MONTH_NAMES[0] == "January" && MONTH_NAMES[12] == "Jan" && "January"[..3] == "Jan";
    assert forall k :: 0 <= k < |MONTH_NAMES| && |MONTH_NAMES[k]| == 6 ==> MONTH_NAMES[k][0] == 'A';
    assert "January"[..6][0] == 'J';
    assert !HasKeyword(MONTH_NAMES, "January"[..6]);
    assert !ClosedBetween(MONTH_NAMES, 3, "January");
  }
}
