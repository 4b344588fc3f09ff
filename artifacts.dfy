/** Names built by node-profiling.js: the per-iteration profile reference, the labels
    passed to takeHeapSnapshot, the artifact file names and the archive name. */
module Artifacts {

  /** The factor applied to the seconds part of process.hrtime(). */
  const NS_PER_SEC: nat := 1000000000

  predicate IsDigit(c: char) { '0' <= c <= '9' }

  predicate AllDigits(s: string) { forall i :: 0 <= i < |s| ==> IsDigit(s[i]) }

  function DigitChar(d: nat): (c: char)
    requires d < 10
    ensures IsDigit(c) && (c == '0' <==> d == 0)
  {
    ('0' as int + d) as char
  }

  function DigitValue(c: char): (d: nat)
    requires IsDigit(c)
    ensures d < 10
  {
    c as int - '0' as int
  }

  /** The numeral JavaScript prints when a non-negative integer is turned into a string. */
  function Decimal(n: nat): (s: string)
    ensures |s| >= 1 && AllDigits(s)
    ensures s[0] == '0' <==> n == 0
  {
    if n < 10 then [DigitChar(n)] else Decimal(n / 10) + [DigitChar(n % 10)]
  }

  function Pow10(k: nat): (p: nat)
    ensures p >= 1
  {
    if k == 0 then 1 else 10 * Pow10(k - 1)
  }

  /** The number a string of decimal digits denotes (the inverse of Decimal). */
  function DigitsValue(s: string): (v: nat)
    requires AllDigits(s)
    ensures v < Pow10(|s|)
  {
    if |s| == 0 then 0 else 10 * DigitsValue(s[..|s| - 1]) + DigitValue(s[|s| - 1])
  }

  lemma {:induction false} DecimalRoundTrip(n: nat)
    ensures DigitsValue(Decimal(n)) == n
  {
    if n >= 10 {
      var s := Decimal(n);
      assert s[..|s| - 1] == Decimal(n / 10);
      DecimalRoundTrip(n / 10);
    }
  }

  lemma {:induction false} DigitsValueAppend(a: string, b: string)
    requires AllDigits(a) && AllDigits(b)
    ensures AllDigits(a + b)
    ensures DigitsValue(a + b) == DigitsValue(a) * Pow10(|b|) + DigitsValue(b)
  {
    if |b| == 0 {
      assert a + b == a;
    } else {
      var b', c := b[..|b| - 1], b[|b| - 1];
      assert (a + b)[..|a + b| - 1] == a + b';
      assert (a + b)[|a + b| - 1] == c;
      DigitsValueAppend(a, b');
      ShiftDigit(DigitsValue(a), Pow10(|b'|), DigitsValue(b'), DigitValue(c));
    }
  }

  lemma ShiftDigit(x: nat, p: nat, y: nat, d: nat)
    ensures 10 * (x * p + y) + d == x * (10 * p) + (10 * y + d)
  {
  }

  /** profileReference of doProfile: a template literal around
      `Date.now() + '_' + time[0] * NS_PER_SEC + time[1]`. The first `+` makes a string,
      so the two later operands are appended as numerals rather than added. */
  function ProfileReference(now: nat, sec: nat, nanos: nat): (r: string)
    ensures |Decimal(now)| < |r| && r[|Decimal(now)|] == '_'
    ensures AllDigits(r[..|Decimal(now)|]) && AllDigits(r[|Decimal(now)| + 1..])
  {
    Decimal(now) + "_" + Decimal(sec * NS_PER_SEC) + Decimal(nanos)
  }

  /** What the two digit fields of a profile reference denote: the millisecond clock before
      the underscore, and after it the hrtime seconds in nanoseconds shifted left by the
      width of the nanosecond numeral, plus the nanoseconds (a concatenation, not the sum). */
  lemma ReferenceFields(now: nat, sec: nat, nanos: nat)
    ensures var r := ProfileReference(now, sec, nanos);
            var k := |Decimal(now)|;
            DigitsValue(r[..k]) == now &&
            DigitsValue(r[k + 1..]) == sec * NS_PER_SEC * Pow10(|Decimal(nanos)|) + nanos
  {
    var m := sec * NS_PER_SEC;
    var x, y, z := Decimal(now), Decimal(m), Decimal(nanos);
    var r := ProfileReference(now, sec, nanos);
    assert r == x + "_" + (y + z);
    SplitAtUnderscore(x, y + z);
    assert r[..|x|] == x;
    assert r[|x| + 1..] == y + z;
    DecimalRoundTrip(now);
    DecimalRoundTrip(m);
    DecimalRoundTrip(nanos);
    DigitsValueAppend(y, z);
    assert DigitsValue(r[|x| + 1..]) == m * Pow10(|z|) + nanos;
  }

  lemma SplitAtUnderscore(x: string, y: string)
    ensures (x + "_" + y)[..|x|] == x && (x + "_" + y)[|x| + 1..] == y
  {
  }

  /** Label given to takeHeapSnapshot by headHeapSnapshot. */
  function HeadLabel(reference: string): string { reference + "_START" }

  /** Label given to takeHeapSnapshot by tailHeapSnapshot. */
  function TailLabel(reference: string): string { reference + "_END" }

  /** File a heap snapshot with the given tag is written to. */
  function SnapshotFile(tag: string): string { "HEAPSNAPSHOT_" + tag + ".heapsnapshot" }

  /** File the CPU profile of an iteration is written to. */
  function ProfileFile(reference: string): string { "CPUPROFILE_" + reference + ".cpuprofile" }

  /** Archive packFiles creates, named after the clock at packing time. */
  function ArchiveName(now: nat): string { "profiling_session-" + Decimal(now) + ".tgz" }

  /** The archive name holds the decimal digits of the clock at packing time, which read
      back as that clock value. */
  lemma ArchiveNameLayout(now: nat)
    ensures var a := ArchiveName(now);
            |a| > 18 + 4 && a[..18] == "profiling_session-" && a[|a| - 4..] == ".tgz" &&
            AllDigits(a[18..|a| - 4]) && DigitsValue(a[18..|a| - 4]) == now
  {
    var a := ArchiveName(now);
    assert a[18..|a| - 4] == Decimal(now);
    DecimalRoundTrip(now);
  }

  /** The names one iteration pushes onto filesCreated, in push order. */
  function IterationFiles(reference: string): (files: seq<string>)
    ensures |files| == 3
  {
    [SnapshotFile(HeadLabel(reference)), SnapshotFile(TailLabel(reference)), ProfileFile(reference)]
  }

  /** The names pushed by a run of completed iterations with the given references. */
  function SessionFiles(refs: seq<string>): (files: seq<string>)
    ensures |files| == 3 * |refs|
  {
    if refs == [] then [] else SessionFiles(refs[..|refs| - 1]) + IterationFiles(refs[|refs| - 1])
  }

  predicate Distinct<T(==)>(s: seq<T>) { forall i, j :: 0 <= i < j < |s| ==> s[i] != s[j] }

  lemma {:induction false} SessionFilesLayout(refs: seq<string>, i: nat, k: nat)
    requires i < |refs| && k < 3
    ensures SessionFiles(refs)[3 * i + k] == IterationFiles(refs[i])[k]
  {
    var init := refs[..|refs| - 1];
    if i < |refs| - 1 {
      assert init[i] == refs[i];
      SessionFilesLayout(init, i, k);
    }
  }

  lemma CancelAffixes(p: string, x: string, y: string, q: string)
    requires p + x + q == p + y + q
    ensures x == y
  {
    var s := p + x + q;
    assert |x| == |y|;
    assert x == s[|p|..|p| + |x|];
    assert y == s[|p|..|p| + |y|];
  }

  /** Within one iteration the three names differ each from the others, and a name
      determines the reference it was built from. */
  lemma IterationFilesDistinct(r1: string, r2: string, i: nat, j: nat)
    requires i < 3 && j < 3
    ensures IterationFiles(r1)[i] == IterationFiles(r2)[j] <==> r1 == r2 && i == j
  {
    var f1, f2 := IterationFiles(r1)[i], IterationFiles(r2)[j];
    if i == 2 && j == 2 {
      if f1 == f2 {
        CancelAffixes("CPUPROFILE_", r1, r2, ".cpuprofile");
      }
    } else if i == 2 || j == 2 {
      assert f1[0] != f2[0];
    } else if f1 == f2 {
      var l1 := if i == 0 then HeadLabel(r1) else TailLabel(r1);
      var l2 := if j == 0 then HeadLabel(r2) else TailLabel(r2);
      CancelAffixes("HEAPSNAPSHOT_", l1, l2, ".heapsnapshot");
      assert l1[|l1| - 1] == (if i == 0 then 'T' else 'D');
      assert l2[|l2| - 1] == (if j == 0 then 'T' else 'D');
      if i == 0 {
        assert r1 == l1[..|l1| - 6];
        assert r2 == l2[..|l2| - 6];
      } else {
        assert r1 == l1[..|l1| - 4];
        assert r2 == l2[..|l2| - 4];
      }
    }
  }

  /** The archive is never one of the recorded names: those begin with "HEAPSNAPSHOT_" or
      "CPUPROFILE_", the archive with "profiling_session-". So tar never packs the archive
      and the unlink loop never removes it. */
  lemma ArchiveNotRecorded(refs: seq<string>, now: nat)
    ensures ArchiveName(now) !in SessionFiles(refs)
  {
    var files := SessionFiles(refs);
    forall p | 0 <= p < |files|
      ensures files[p] != ArchiveName(now)
    {
      SessionFilesLayout(refs, p / 3, p % 3);
      assert files[p][0] == 'H' || files[p][0] == 'C';
      assert ArchiveName(now)[0] == 'p';
    }
  }

  /** Distinct references give a file list without repetitions, so packing and unlinking
      never meet the same name twice. */
  lemma SessionFilesDistinct(refs: seq<string>)
    requires Distinct(refs)
    ensures Distinct(SessionFiles(refs))
  {
    var files := SessionFiles(refs);
    forall p, q | 0 <= p < q < |files|
      ensures files[p] != files[q]
    {
      var i, k, j, l := p / 3, p % 3, q / 3, q % 3;
      SessionFilesLayout(refs, i, k);
      SessionFilesLayout(refs, j, l);
      IterationFilesDistinct(refs[i], refs[j], k, l);
    }
  }
}
