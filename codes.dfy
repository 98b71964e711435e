/**
 * Region-code helpers: resolution of superseded NUTS codes
 * (src/io.py:251-254) and the two-letter country prefix of a code
 * (src/io.py:207-208).
 */
module Codes {
  import opened Series

  /** A row of the code-change table: in `year` the code `oldCode` became `newCode`. */
  datatype Change = Change(year: int, oldCode: string, newCode: string)

  /** Python string order: lexicographic by character, a proper prefix first. */
  predicate StrLess(a: string, b: string)
  {
    if |a| == 0 then |b| > 0
    else if |b| == 0 then false
    else if a[0] != b[0] then a[0] < b[0]
    else StrLess(a[1..], b[1..])
  }

  lemma {:induction false} StrLessIrreflexive(a: string)
    ensures !StrLess(a, a)
  {
    if |a| > 0 {
      StrLessIrreflexive(a[1..]);
    }
  }

  lemma {:induction false} StrLessTotal(a: string, b: string)
    ensures a == b || StrLess(a, b) || StrLess(b, a)
  {
    if |a| > 0 && |b| > 0 && a[0] == b[0] {
      StrLessTotal(a[1..], b[1..]);
      if a[1..] == b[1..] {
        assert a == [a[0]] + a[1..] && b == [b[0]] + b[1..];
      }
    }
  }

  lemma {:induction false} StrLessAsymmetric(a: string, b: string)
    ensures !(StrLess(a, b) && StrLess(b, a))
  {
    if |a| > 0 && |b| > 0 && a[0] == b[0] {
      StrLessAsymmetric(a[1..], b[1..]);
    }
  }

  lemma {:induction false} StrLessTransitive(a: string, b: string, c: string)
    requires StrLess(a, b) && StrLess(b, c)
    ensures StrLess(a, c)
  {
    if |a| > 0 && a[0] == b[0] && b[0] == c[0] {
      StrLessTransitive(a[1..], b[1..], c[1..]);
    }
  }

  /** The order of the rows of one old code after sorting by (year, old, new). */
  predicate Before(x: Change, y: Change)
  {
    x.year < y.year || (x.year == y.year && StrLess(x.newCode, y.newCode))
  }

  /** y is not before x: x sorts at or after y. */
  lemma NotBeforeTransitive(x: Change, y: Change, z: Change)
    requires !Before(x, y) && !Before(y, z)
    ensures !Before(x, z)
  {
    StrLessTotal(x.newCode, y.newCode);
    StrLessTotal(y.newCode, z.newCode);
    if x.year == z.year && StrLess(x.newCode, z.newCode) {
      assert x.year == y.year && y.year == z.year;
      if x.newCode != y.newCode && y.newCode != z.newCode {
        StrLessTransitive(z.newCode, y.newCode, x.newCode);
        StrLessAsymmetric(x.newCode, z.newCode);
      } else if x.newCode == y.newCode {
        StrLessAsymmetric(y.newCode, z.newCode);
      } else {
        StrLessAsymmetric(x.newCode, y.newCode);
      }
    }
  }

  /** The row of old code `code` that a sort by (year, old, new) puts last, if the code has a row. */
  function Latest(rows: seq<Change>, code: string): (r: Option<Change>)
    ensures r.None? <==> forall i :: 0 <= i < |rows| ==> rows[i].oldCode != code
    ensures r.Some? ==> r.value in rows && r.value.oldCode == code
    ensures r.Some? ==> forall i :: 0 <= i < |rows| && rows[i].oldCode == code ==> !Before(r.value, rows[i])
  {
    if rows == [] then None
    else
      var init := rows[..|rows| - 1];
      var row := rows[|rows| - 1];
      var best := Latest(init, code);
      assert forall i :: 0 <= i < |init| ==> init[i] == rows[i];
      if row.oldCode != code then best
      else if best.None? || !Before(row, best.value) then
        LatestAbove(init, code, best, row);
        StrLessIrreflexive(row.newCode);
        Some(row)
      else
        assert !Before(best.value, row) by {
          StrLessAsymmetric(row.newCode, best.value.newCode);
        }
        best
  }

  /** A row at or after the current latest is at or after every earlier row of the code. */
  lemma LatestAbove(init: seq<Change>, code: string, best: Option<Change>, row: Change)
    requires best.Some? ==> forall i :: 0 <= i < |init| && init[i].oldCode == code ==> !Before(best.value, init[i])
    requires best.None? ==> forall i :: 0 <= i < |init| ==> init[i].oldCode != code
    requires best.Some? ==> !Before(row, best.value)
    ensures forall i :: 0 <= i < |init| && init[i].oldCode == code ==> !Before(row, init[i])
  {
    forall i | 0 <= i < |init| && init[i].oldCode == code ensures !Before(row, init[i]) {
      NotBeforeTransitive(row, best.value, init[i]);
    }
  }

  /** The old codes of the table. */
  function OldCodes(rows: seq<Change>): set<string>
  {
    set i | 0 <= i < |rows| :: rows[i].oldCode
  }

  /**
   * The resolution table: every old code maps to the new code of its
   * latest change, ties in year going to the greatest new code.
   */
  function NutsLookup(rows: seq<Change>): (lookup: map<string, string>)
    ensures lookup.Keys == OldCodes(rows)
    ensures forall code :: code in lookup ==>
      exists i :: 0 <= i < |rows| && rows[i].oldCode == code && rows[i].newCode == lookup[code] &&
        forall j :: 0 <= j < |rows| && rows[j].oldCode == code ==> !Before(rows[i], rows[j])
  {
    var lookup := map code | code in OldCodes(rows) :: Latest(rows, code).value.newCode;
    assert forall code :: code in lookup ==> Latest(rows, code).Some?;
    lookup
  }

  /** str[0:2]: the first two characters, or the whole code when it is shorter. */
  function CountryPrefix(code: string): (r: string)
    ensures |r| == if |code| < 2 then |code| else 2
    ensures r <= code
  {
    if |code| < 2 then code else code[..2]
  }

  /** The survey keeps a region exactly when its code starts with "EL". */
  lemma GreekPrefix(code: string)
    ensures CountryPrefix(code) == "EL" <==> |code| >= 2 && code[0] == 'E' && code[1] == 'L'
  {
    if |code| >= 2 && code[0] == 'E' && code[1] == 'L' {
      assert CountryPrefix(code) == [code[0], code[1]];
    }
  }

  /** A region code is its country prefix followed by the rest of the code. */
  lemma CountryPrefixSplits(code: string)
    requires |code| >= 2
    ensures CountryPrefix(code) + code[2..] == code
  {
  }

  /** Two codes share a prefix exactly when their first two characters agree. */
  lemma SameCountry(a: string, b: string)
    requires |a| >= 2 && |b| >= 2
    ensures CountryPrefix(a) == CountryPrefix(b) <==> a[0] == b[0] && a[1] == b[1]
  {
    if a[0] == b[0] && a[1] == b[1] {
      assert CountryPrefix(a) == [a[0], a[1]];
      assert CountryPrefix(b) == [b[0], b[1]];
    }
  }
}
