/** Reading a recorded run back: file names, their order, and what a cut or damaged file gives. */
module Replay {
  import opened Common
  import opened EngineSpec
  import opened FixedPoint
  import opened CaptureSpec
  import opened TapeTheory
  import opened Capture

  // ---------- File names ----------

  const SUFFIX := ".gob.gz"

  function FileName(runID: string, n: nat): string {
    "cap-" + runID + "-" + LeftPad(Dec(n), 6) + SUFFIX
  }

  function TrimPrefix(s: string, prefix: string): string {
    if prefix <= s then s[|prefix|..] else s
  }

  function TrimSuffix(s: string, suffix: string): string {
    if |suffix| <= |s| && s[|s| - |suffix|..] == suffix then s[..|s| - |suffix|] else s
  }

  /** The position of the last hyphen. */
  function LastHyphen(s: string): Option<nat> {
    if s == "" then None
    else if s[|s| - 1] == '-' then Some(|s| - 1)
    else LastHyphen(s[..|s| - 1])
  }

  /** Go's conversion of a decimal string to int: an optional sign, then digits, in range. */
  function Atoi(s: string): Option<Int64> {
    var signed := s != "" && (s[0] == '+' || s[0] == '-');
    var digits := if signed then s[1..] else s;
    if digits == "" || !AllDigits(digits) then None
    else
      var size: int := NumVal(digits);
      var n := if signed && s[0] == '-' then -size else size;
      if MIN_INT64 <= n <= MAX_INT64 then Some(n as Int64) else None
  }

  datatype ParsedName = ParsedName(runID: string, number: Int64) | NotCaptureFile | NoSequence | BadSequence

  function ParseCaptureName(base: string): ParsedName {
    var trimmed := TrimSuffix(TrimPrefix(base, "cap-"), SUFFIX);
    if trimmed == base then NotCaptureFile
    else
      match LastHyphen(trimmed)
      case None => NoSequence
      case Some(i) =>
        if i >= |trimmed| then NoSequence
        else
          match Atoi(trimmed[i + 1..])
          case None => BadSequence
          case Some(n) => ParsedName(trimmed[..i], n)
  }

  /** The sequence number of a file of a known run. */
  function NumberOf(runID: string, base: string): Option<Int64> {
    Atoi(TrimSuffix(TrimPrefix(base, "cap-" + runID + "-"), SUFFIX))
  }

  lemma {:induction false} HyphenBefore(a: string, digits: string)
    requires AllDigits(digits)
    ensures LastHyphen(a + "-" + digits) == Some(|a|)
  {
    var s := a + "-" + digits;
    if digits != "" {
      assert s[..|s| - 1] == a + "-" + digits[..|digits| - 1];
      HyphenBefore(a, digits[..|digits| - 1]);
    }
  }

  lemma {:induction false} DigitsNumber(n: nat)
    requires n <= MAX_INT64
    ensures Atoi(LeftPad(Dec(n), 6)) == Some(n)
  {
    var digits := LeftPad(Dec(n), 6);
    PadKeepsValue(Dec(n), 6);
    assert IsDigit(digits[0]);
  }

  lemma TrimBoth(prefix: string, body: string)
    ensures TrimSuffix(TrimPrefix(prefix + body + SUFFIX, prefix), SUFFIX) == body
  {
  }

  /** A file's name gives back its run, hyphens and all, and its number. */
  lemma {:induction false} NameRoundTrip(runID: string, n: nat)
    requires n <= MAX_INT64
    ensures ParseCaptureName(FileName(runID, n)) == ParsedName(runID, n)
    ensures NumberOf(runID, FileName(runID, n)) == Some(n)
  {
    hide Atoi, Dec, LeftPad, LastHyphen, TrimPrefix, TrimSuffix;
    var digits := LeftPad(Dec(n), 6);
    var body := runID + "-" + digits;
    DigitsNumber(n);
    HyphenBefore(runID, digits);
    assert FileName(runID, n) == "cap-" + body + SUFFIX;
    TrimBoth("cap-", body);
    assert body[..|runID|] == runID && body[|runID| + 1..] == digits;
    assert FileName(runID, n) == ("cap-" + runID + "-") + digits + SUFFIX;
    TrimBoth("cap-" + runID + "-", digits);
  }

  /** Whether a name matches the pattern a replay of runID looks for. */
  predicate Globs(runID: string, name: string) {
    var prefix := "cap-" + runID + "-";
    prefix <= name && |prefix| + |SUFFIX| <= |name| && name[|name| - |SUFFIX|..] == SUFFIX
  }

  lemma NoHyphen(digits: string)
    requires AllDigits(digits)
    ensures forall i :: 0 <= i < |digits + SUFFIX| ==> (digits + SUFFIX)[i] != '-'
  {
  }

  /** The files of another run match exactly when its id is this one's, or extends it by a hyphen. */
  lemma {:induction false} GlobsIff(runID: string, other: string, n: nat)
    ensures Globs(runID, FileName(other, n)) <==> other == runID || (runID + "-") <= other
  {
    hide Dec, LeftPad;
    var digits, name, prefix := LeftPad(Dec(n), 6), FileName(other, n), "cap-" + runID + "-";
    NoHyphen(digits);
    assert name == "cap-" + (other + "-" + digits + SUFFIX);
    if Globs(runID, name) {
      SameHyphen(runID, other, digits + SUFFIX, name);
    } else if other == runID || (runID + "-") <= other {
      GlobsOwn(runID, other, digits, name);
    }
  }

  /** After the last hyphen of a file name the prefix of another run cannot end. */
  lemma {:induction false} SameHyphen(runID: string, other: string, tail: string, name: string)
    requires name == "cap-" + other + "-" + tail && ("cap-" + runID + "-") <= name
    requires forall i :: 0 <= i < |tail| ==> tail[i] != '-'
    ensures other == runID || (runID + "-") <= other
  {
    var prefix, k := "cap-" + runID + "-", |runID|;
    assert prefix[4 + k] == '-' && name[4 + k] == '-';
    var rest := name[4..];
    assert rest == other + "-" + tail && rest[k] == '-';
    forall i | |other| < i < |rest| ensures rest[i] != '-' {
      assert rest[i] == tail[i - |other| - 1];
    }
    assert k <= |other|;
    assert forall i :: 0 <= i < k ==> runID[i] == prefix[4 + i] == name[4 + i] == other[i];
    if k < |other| {
      assert other[k] == name[4 + k];
      assert other[..k] == runID && other[..k + 1] == runID + "-";
    }
  }

  lemma {:induction false} GlobsOwn(runID: string, other: string, digits: string, name: string)
    requires name == "cap-" + other + "-" + digits + SUFFIX && digits != ""
    requires other == runID || (runID + "-") <= other
    ensures Globs(runID, name)
  {
    assert name[|name| - |SUFFIX|..] == SUFFIX;
    if other != runID {
      var more := other[|runID| + 1..];
      assert other == runID + "-" + more;
      assert name == ("cap-" + runID + "-") + (more + "-" + digits + SUFFIX);
    }
  }

  /** A file of a run whose id extends this one by a hyphen and more has no number under this one. */
  lemma {:induction false} LongerRunClashes(runID: string, more: string, n: nat)
    requires more != ""
    ensures NumberOf(runID, FileName(runID + "-" + more, n)) == None
  {
    var body := more + "-" + LeftPad(Dec(n), 6);
    var prefix := "cap-" + runID + "-";
    assert FileName(runID + "-" + more, n) == prefix + body + SUFFIX;
    TrimBoth(prefix, body);
    assert body[|more|] == '-' && !IsDigit('-');
    if body[0] == '+' || body[0] == '-' {
      assert body[1..][|more| - 1] == '-';
    }
  }

  /** And one whose id extends it by a hyphen alone has the negated number: its first file is taken for this run's. */
  lemma {:induction false} HyphenRunClashes(runID: string, n: nat)
    requires n <= MAX_INT64
    ensures var number := NumberOf(runID, FileName(runID + "-", n)); number.Some? && number.value + n == 0
  {
    var digits := LeftPad(Dec(n), 6);
    var prefix := "cap-" + runID + "-";
    PadKeepsValue(Dec(n), 6);
    assert FileName(runID + "-", n) == prefix + ("-" + digits) + SUFFIX;
    TrimBoth(prefix, "-" + digits);
    assert ("-" + digits)[1..] == digits;
  }

  // ---------- What a file on disk reads as ----------

  /** The start of a file: bytes that are no gzip header, cut inside the gzip header or before it, not readable at all,
      cut before the header record ends, ended there by a gzip checksum that does not match, a damaged header record, or
      the header. */
  datatype Head = BadMagic | GzipCut | Unreadable | HeadCut | HeadBadSum | HeadDamaged | Head(header: Header)

  /** How its records end: properly, cut short, with a gzip checksum that does not match, or in damage. */
  datatype Ending = Complete | Cut | BadSum | Damaged

  /** A file, with the records that decode before it ends. */
  datatype DiskFile = DiskFile(name: string, head: Head, records: seq<Record>, ending: Ending)

  datatype ReplayError = NoFiles | BadName | MissingSequence | BadFile | UnsupportedFormat | EmptyRunID | Callback

  datatype Reading = Reading(records: seq<Record>, truncated: bool, err: Option<ReplayError>)

  /** One file. Only the last may be cut, or fail its checksum. */
  function ReadFile(f: DiskFile, isLast: bool): Reading {
    match f.head
    case BadMagic => if isLast then Reading([], true, None) else Reading([], false, Some(BadFile))
    case GzipCut => Reading([], false, Some(BadFile))
    case Unreadable => Reading([], false, Some(BadFile))
    case HeadCut => if isLast then Reading([], true, None) else Reading([], false, Some(BadFile))
    case HeadBadSum => if isLast then Reading([], true, None) else Reading([], false, Some(BadFile))
    case HeadDamaged => Reading([], false, Some(BadFile))
    case Head(h) =>
      if h.format != FORMAT_VERSION then Reading([], false, Some(UnsupportedFormat))
      else if h.runID == "" then Reading([], false, Some(EmptyRunID))
      else
        match f.ending
        case Complete => Reading(f.records, false, None)
        case Cut => if isLast then Reading(f.records, true, None) else Reading(f.records, false, Some(BadFile))
        case BadSum => if isLast then Reading(f.records, true, None) else Reading(f.records, false, Some(BadFile))
        case Damaged => Reading(f.records, false, Some(BadFile))
  }

  function Then(r: Reading, f: DiskFile, isLast: bool): Reading {
    var x := ReadFile(f, isLast);
    if r.err.Some? then r else Reading(r.records + x.records, x.truncated, x.err)
  }

  /** Files none of which is the last. */
  function ReadInner(files: seq<DiskFile>): Reading {
    if files == [] then Reading([], false, None) else Then(ReadInner(files[..|files| - 1]), files[|files| - 1], false)
  }

  function ReadAll(files: seq<DiskFile>): Reading {
    if files == [] then Reading([], false, None) else Then(ReadInner(files[..|files| - 1]), files[|files| - 1], true)
  }

  /** A file as the recorder finished it. */
  function Intact(f: File): DiskFile {
    DiskFile(FileName(f.header.runID, if f.header.number >= 0 then f.header.number else 0), Head(f.header), f.records, Complete)
  }

  function AllIntact(files: seq<File>): (ds: seq<DiskFile>)
    ensures |ds| == |files| && forall i :: 0 <= i < |ds| ==> ds[i] == Intact(files[i])
  {
    if files == [] then [] else AllIntact(files[..|files| - 1]) + [Intact(files[|files| - 1])]
  }

  ghost predicate OfRun(files: seq<File>) {
    forall i :: 0 <= i < |files| ==> files[i].header.format == FORMAT_VERSION && files[i].header.runID != ""
  }

  lemma IntactReads(f: File, isLast: bool)
    requires f.header.format == FORMAT_VERSION && f.header.runID != ""
    ensures ReadFile(Intact(f), isLast) == Reading(f.records, false, None)
  {
  }

  lemma {:induction false} InnerReads(files: seq<File>)
    requires OfRun(files)
    ensures ReadInner(AllIntact(files)) == Reading(AllRecords(files), false, None)
  {
    hide ReadFile, Intact;
    if files != [] {
      IntactReads(files[|files| - 1], false);
      var n := |files| - 1;
      InnerReads(files[..n]);
      assert AllIntact(files)[..n] == AllIntact(files[..n]);
    }
  }

  /** Files before the last that are intact contribute all their records; the rest is up to the last. */
  lemma {:induction false} ReadsLast(files: seq<File>, last: DiskFile)
    requires OfRun(files)
    ensures var r := ReadFile(last, true);
      ReadAll(AllIntact(files) + [last]) == Reading(AllRecords(files) + r.records, r.truncated, r.err)
  {
    InnerReads(files);
    assert (AllIntact(files) + [last])[..|files|] == AllIntact(files);
  }

  /** A finished run reads back as its records, in order. */
  lemma {:induction false} IntactReplay(files: seq<File>)
    requires OfRun(files) && files != []
    ensures ReadAll(AllIntact(files)) == Reading(AllRecords(files), false, None)
  {
    hide ReadFile, Intact;
    var n := |files| - 1;
    assert AllIntact(files) == AllIntact(files[..n]) + [Intact(files[n])];
    IntactReads(files[n], true);
    ReadsLast(files[..n], Intact(files[n]));
  }

  /** Whether the file is a recording this version reads. */
  predicate Opens(f: DiskFile) {
    f.head.Head? && f.head.header.format == FORMAT_VERSION && f.head.header.runID != ""
  }

  /** What is wrong with a last file that reads as truncated: no gzip header, or past it a cut or a checksum that does
      not match. */
  predicate Tolerated(f: DiskFile) {
    || f.head == BadMagic || f.head == HeadCut || f.head == HeadBadSum
    || (Opens(f) && (f.ending == Cut || f.ending == BadSum))
  }

  function HandedOn(f: DiskFile): seq<Record> {
    if Opens(f) then f.records else []
  }

  /** The error a file gives that is neither whole nor tolerated. */
  function ErrorOf(f: DiskFile): ReplayError {
    if !f.head.Head? then BadFile
    else if f.head.header.format != FORMAT_VERSION then UnsupportedFormat
    else if f.head.header.runID == "" then EmptyRunID
    else BadFile
  }

  /** For any last file whatsoever after files that are intact: the run reads back without an error exactly when that
      file is whole or tolerated, and as truncated exactly when it is tolerated; and what is read is a prefix of the
      tape exactly when what decodes of that file is a prefix of what was written to it. */
  lemma {:induction false} LastFileDecides(files: seq<File>, last: DiskFile)
    requires OfRun(files) && files != []
    ensures var n := |files| - 1; var r := ReadAll(AllIntact(files[..n]) + [last]);
      && (r.err == None <==> Tolerated(last) || (Opens(last) && last.ending == Complete))
      && (r.err != None ==> r.err == Some(ErrorOf(last)))
      && (r.truncated <==> Tolerated(last))
      && (r.records <= AllRecords(files) <==> HandedOn(last) <= files[n].records)
  {
    hide ReadAll, AllRecords, AllIntact;
    var n := |files| - 1;
    ReadsLast(files[..n], last);
    AllButLast(files);
    PrefixAfter(AllRecords(files[..n]), HandedOn(last), files[n].records);
  }

  lemma AllButLast(files: seq<File>)
    requires files != []
    ensures AllRecords(files) == AllRecords(files[..|files| - 1]) + files[|files| - 1].records
  {
  }

  lemma {:induction false} PrefixAfter(a: seq<Record>, b: seq<Record>, c: seq<Record>)
    ensures a + b <= a + c <==> b <= c
  {
    if a + b <= a + c {
      forall i | 0 <= i < |b| ensures b[i] == c[i] {
        assert (a + b)[|a| + i] == (a + c)[|a| + i];
      }
    }
  }

  /** A file that a kill cut short, anywhere at all. */
  predicate IsCut(f: DiskFile) {
    f.head == GzipCut || f.head == HeadCut || (f.head.Head? && f.ending == Cut)
  }

  /** So a run whose last file was cut reads back, as truncated, if and only if the cut came after the gzip header. */
  lemma {:induction false} CutReplay(files: seq<File>, last: DiskFile)
    requires OfRun(files) && files != [] && IsCut(last)
    // What is left of a file is what was written to it, up to the cut.
    requires last.head.Head? ==> last.head.header == files[|files| - 1].header
    requires last.records <= files[|files| - 1].records
    ensures var r := ReadAll(AllIntact(files[..|files| - 1]) + [last]);
      && r.records <= AllRecords(files)
      && (r.err == None && r.truncated <==> last.head != GzipCut)
  {
    hide ReadAll, AllRecords, AllIntact;
    LastFileDecides(files, last);
  }

  /** The empty file of a recorder killed between creating it and writing to it makes the run unreadable. */
  lemma {:induction false} EmptyLastFile(files: seq<File>, name: string)
    requires OfRun(files) && files != []
    ensures var r := ReadAll(AllIntact(files[..|files| - 1]) + [DiskFile(name, GzipCut, [], Cut)]);
      r.err == Some(BadFile) && !r.truncated
  {
    hide ReadAll, AllIntact;
    LastFileDecides(files, DiskFile(name, GzipCut, [], Cut));
  }

  /** A last file altered so that it still decodes, with a checksum that then does not match. */
  function Altered(f: File, name: string, decoded: seq<Record>): DiskFile {
    DiskFile(name, Head(f.header), decoded, BadSum)
  }

  /** Damage of that kind is never an error. Every record that decodes is handed on and the run counts as truncated,
      even when nothing but the checksum was altered; what is read is a prefix of the tape if and only if what decodes
      is a prefix of what was written. */
  lemma {:induction false} AlteredReplay(files: seq<File>, name: string, decoded: seq<Record>)
    requires OfRun(files) && files != []
    ensures var n := |files| - 1; var r := ReadAll(AllIntact(files[..n]) + [Altered(files[n], name, decoded)]);
      && r == Reading(AllRecords(files[..n]) + decoded, true, None)
      && (r.records <= AllRecords(files) <==> decoded <= files[n].records)
  {
    hide ReadAll, AllRecords, AllIntact;
    var last := Altered(files[|files| - 1], name, decoded);
    ReadsLast(files[..|files| - 1], last);
    LastFileDecides(files, last);
  }

  /** One altered record is then read as if it had been recorded. */
  lemma {:induction false} AlteredIsRead(files: seq<File>, name: string, i: nat, r: Record)
    requires OfRun(files) && files != [] && i < |files[|files| - 1].records| && r != files[|files| - 1].records[i]
    ensures var n := |files| - 1;
      var read := ReadAll(AllIntact(files[..n]) + [Altered(files[n], name, files[n].records[i := r])]);
      && read.err == None && r in read.records && |read.records| == |AllRecords(files)|
      && read.records != AllRecords(files)
  {
    hide ReadAll, AllRecords, AllIntact;
    var n := |files| - 1;
    var decoded := files[n].records[i := r];
    AlteredReplay(files, name, decoded);
    AllButLast(files);
    assert decoded[i] == r;
    assert !(decoded <= files[n].records);
  }

  lemma {:induction false} ErrorStays(files: seq<DiskFile>, rest: seq<DiskFile>)
    requires ReadInner(files).err.Some?
    ensures ReadInner(files + rest) == ReadInner(files)
  {
    if rest == [] {
      assert files + rest == files;
    } else {
      var all := files + rest;
      assert all[..|all| - 1] == files + rest[..|rest| - 1];
      ErrorStays(files, rest[..|rest| - 1]);
    }
  }

  lemma FaultReads(bad: DiskFile)
    ensures ReadFile(bad, false)
      == if Opens(bad) && bad.ending == Complete then Reading(bad.records, false, None)
         else Reading(HandedOn(bad), false, Some(ErrorOf(bad)))
  {
  }

  /** Any other file that is not whole is an error, after the records before it and what decodes of it. */
  lemma {:induction false} FaultInside(files: seq<File>, bad: DiskFile, rest: seq<DiskFile>)
    requires OfRun(files) && rest != [] && !(Opens(bad) && bad.ending == Complete)
    ensures ReadAll(AllIntact(files) + [bad] + rest)
      == Reading(AllRecords(files) + HandedOn(bad), false, Some(ErrorOf(bad)))
  {
    hide AllRecords, ReadFile, HandedOn, ErrorOf, Opens;
    FaultReads(bad);
    var upto := AllIntact(files) + [bad];
    InnerReads(files);
    assert upto[..|files|] == AllIntact(files);
    ErrorStays(upto, rest[..|rest| - 1]);
    assert (upto + rest)[..|upto + rest| - 1] == upto + rest[..|rest| - 1];
  }

  // ---------- The whole run ----------

  datatype Stats = Stats(records: nat, gaps: nat, gapEvents: nat, truncated: bool)

  function GapCount(tape: seq<Record>): nat {
    if tape == [] then 0 else GapCount(tape[..|tape| - 1]) + if tape[|tape| - 1].gap > 0 then 1 else 0
  }

  /** The counters tell what was replayed. */
  ghost predicate Counts(s: Stats, tape: seq<Record>) {
    s.records == |tape| && s.gaps == GapCount(tape) && s.gapEvents == GapSum(tape)
  }

  /** order is the files found, each at the place its name gives. */
  ghost predicate Arranged(runID: string, found: seq<DiskFile>, order: seq<DiskFile>) {
    multiset(order) == multiset(found) && forall i :: 0 <= i < |order| ==> NumberOf(runID, order[i].name) == Some(i)
  }

  function Num(runID: string, f: DiskFile): int {
    var n := NumberOf(runID, f.name);
    if n == None then -1 else n.value
  }

  ghost predicate ByNumber(runID: string, fs: seq<DiskFile>) {
    forall i, j :: 0 <= i < j < |fs| ==> Num(runID, fs[i]) <= Num(runID, fs[j])
  }

  function Insert(runID: string, fs: seq<DiskFile>, f: DiskFile): seq<DiskFile> {
    if fs == [] || Num(runID, fs[|fs| - 1]) <= Num(runID, f) then fs + [f]
    else Insert(runID, fs[..|fs| - 1], f) + [fs[|fs| - 1]]
  }

  lemma {:induction false} InsertKeeps(runID: string, fs: seq<DiskFile>, f: DiskFile)
    requires ByNumber(runID, fs)
    ensures ByNumber(runID, Insert(runID, fs, f))
    ensures multiset(Insert(runID, fs, f)) == multiset(fs) + multiset{f}
  {
    hide Num;
    if fs != [] && Num(runID, fs[|fs| - 1]) > Num(runID, f) {
      var n := |fs| - 1;
      var front := Insert(runID, fs[..n], f);
      InsertKeeps(runID, fs[..n], f);
      assert fs == fs[..n] + [fs[n]];
      forall i | 0 <= i < |front| ensures Num(runID, front[i]) <= Num(runID, fs[n]) {
        assert front[i] in multiset(front);
      }
    }
  }

  /** Files sorted by number are arranged, when they can be. */
  lemma {:induction false} SortedIsArranged(runID: string, a: seq<DiskFile>, order: seq<DiskFile>)
    requires ByNumber(runID, a) && Arranged(runID, a, order)
    ensures a == order
  {
    hide ByNumber, Arranged;
    assert |a| == |order| by { ArrangedSize(runID, a, order); }
    if a != [] {
      var n := |a| - 1;
      LastMatches(runID, a, order);
      FrontArranged(runID, a, order);
      SortedIsArranged(runID, a[..n], order[..n]);
      assert a == a[..n] + [a[n]] && order == order[..n] + [order[n]];
    }
  }

  lemma ArrangedSize(runID: string, a: seq<DiskFile>, order: seq<DiskFile>)
    requires Arranged(runID, a, order)
    ensures |a| == |order|
  {
    SameSize(a, order);
  }

  lemma FrontArranged(runID: string, a: seq<DiskFile>, order: seq<DiskFile>)
    requires ByNumber(runID, a) && Arranged(runID, a, order) && |a| == |order| > 0 && a[|a| - 1] == order[|a| - 1]
    ensures ByNumber(runID, a[..|a| - 1]) && Arranged(runID, a[..|a| - 1], order[..|a| - 1])
  {
    hide NumberOf, Num;
    FrontElements(a);
    FrontElements(order);
  }

  lemma SameSize(a: seq<DiskFile>, b: seq<DiskFile>)
    requires multiset(a) == multiset(b)
    ensures |a| == |b|
  {
    assert |a| == |multiset(a)| == |multiset(b)| == |b|;
  }

  lemma FrontElements(a: seq<DiskFile>)
    requires a != []
    ensures multiset(a[..|a| - 1]) == multiset(a) - multiset{a[|a| - 1]}
  {
    assert a == a[..|a| - 1] + [a[|a| - 1]];
  }

  lemma {:induction false} LastMatches(runID: string, a: seq<DiskFile>, order: seq<DiskFile>)
    requires ByNumber(runID, a) && Arranged(runID, a, order) && |a| == |order| > 0
    ensures a[|a| - 1] == order[|a| - 1]
  {
    hide NumberOf;
    var n := |a| - 1;
    assert order[n] in multiset(a) && a[n] in multiset(order);
    var i :| 0 <= i < |a| && a[i] == order[n];
    var j :| 0 <= j < |order| && order[j] == a[n];
    assert Num(runID, a[i]) == n && Num(runID, a[n]) == j;
  }

  method IsContiguous(runID: string, fs: seq<DiskFile>) returns (b: bool)
    ensures b <==> forall i :: 0 <= i < |fs| ==> Num(runID, fs[i]) == i
  {
    hide Num;
    for i := 0 to |fs|
      invariant forall k :: 0 <= k < i ==> Num(runID, fs[k]) == k
    {
      if Num(runID, fs[i]) != i {
        return false;
      }
    }
    return true;
  }

  /** Every file found has a number. */
  ghost predicate AllNamed(runID: string, found: seq<DiskFile>) {
    forall i :: 0 <= i < |found| ==> NumberOf(runID, found[i].name).Some?
  }

  /** What a reading is to a callback whose call number `fails` is the first to return an error, if any does: that
      record is the last it is handed. */
  function HeardBy(fails: Option<nat>, r: Reading): Reading {
    if fails.Some? && fails.value < |r.records| then Reading(r.records[..fails.value + 1], false, Some(Callback)) else r
  }

  lemma HeardWhole(fails: Option<nat>, r: Reading)
    ensures (fails.Some? ==> |r.records| <= fails.value) ==> HeardBy(fails, r) == r
  {
  }

  lemma HeardCut(fails: Option<nat>, r: Reading)
    requires fails.Some? && fails.value < |r.records|
    ensures HeardBy(fails, r) == Reading(r.records[..fails.value + 1], false, Some(Callback))
  {
  }

  lemma CountsOne(s: Stats, out: seq<Record>, r: Record)
    requires Counts(s, out)
    ensures var n := s.(records := s.records + 1);
      Counts(if r.gap > 0 then n.(gaps := n.gaps + 1, gapEvents := n.gapEvents + r.gap) else n, out + [r])
  {
    assert (out + [r])[..|out|] == out;
  }

  /** One file: each record is counted and handed on. */
  method ReplayFile(f: DiskFile, isLast: bool, s: Stats, seen: seq<Record>, fails: Option<nat>)
    returns (stats: Stats, out: seq<Record>, truncated: bool, err: Option<ReplayError>)
    requires Counts(s, seen) && (fails.Some? ==> |seen| <= fails.value)
    ensures Reading(out, truncated, err) == HeardBy(fails, Then(Reading(seen, false, None), f, isLast))
    ensures Counts(stats, out) && stats.truncated == s.truncated
    ensures err == None && fails.Some? ==> |out| <= fails.value
  {
    hide Counts, HeardBy;
    ghost var whole := Then(Reading(seen, false, None), f, isLast);
    HeardWhole(fails, whole);
    stats, out := s, seen;
    if f.head == BadMagic || f.head == HeadCut || f.head == HeadBadSum {
      return stats, out, isLast, if isLast then None else Some(BadFile);
    }
    if !f.head.Head? {
      return stats, out, false, Some(BadFile);
    }
    if f.head.header.format != FORMAT_VERSION {
      return stats, out, false, Some(UnsupportedFormat);
    }
    if f.head.header.runID == "" {
      return stats, out, false, Some(EmptyRunID);
    }
    for i := 0 to |f.records|
      invariant out == seen + f.records[..i] && Counts(stats, out) && stats.truncated == s.truncated
      invariant fails.Some? ==> |out| <= fails.value
    {
      var r := f.records[i];
      CountsOne(stats, out, r);
      stats := stats.(records := stats.records + 1);
      if r.gap > 0 {
        stats := stats.(gaps := stats.gaps + 1, gapEvents := stats.gapEvents + r.gap);
      }
      out := out + [r];
      if fails == Some(|out| - 1) {
        assert whole.records == seen + f.records && whole.records[..|out|] == out;
        HeardCut(fails, whole);
        return stats, out, false, Some(Callback);
      }
    }
    assert f.records[..|f.records|] == f.records;
    if f.ending == Complete {
      return stats, out, false, None;
    }
    if isLast && (f.ending == Cut || f.ending == BadSum) {
      return stats, out, true, None;
    }
    return stats, out, false, Some(BadFile);
  }

  lemma {:induction false} InnerFails(files: seq<DiskFile>, i: nat)
    requires i < |files| && Then(ReadInner(files[..i]), files[i], i == |files| - 1).err.Some?
    ensures ReadAll(files) == Then(ReadInner(files[..i]), files[i], i == |files| - 1)
  {
    if i < |files| - 1 {
      assert files[..i + 1][..i] == files[..i];
      ErrorStays(files[..i + 1], files[i + 1..|files| - 1]);
      assert files[..i + 1] + files[i + 1..|files| - 1] == files[..|files| - 1];
    }
  }

  lemma {:induction false} InnerWhole(files: seq<DiskFile>)
    ensures !ReadInner(files).truncated
  {
    if files != [] { InnerWhole(files[..|files| - 1]); }
  }

  lemma {:induction false} InnerGrows(files: seq<DiskFile>, k: nat)
    requires k <= |files|
    ensures ReadInner(files[..k]).records <= ReadInner(files).records
  {
    hide ReadFile;
    if k == |files| {
      assert files[..k] == files;
    } else {
      var n := |files| - 1;
      InnerGrows(files[..n], k);
      assert files[..n][..k] == files[..k];
    }
  }

  /** What the files up to some point give is the start of what they all give. */
  lemma {:induction false} ReadGrows(files: seq<DiskFile>, i: nat)
    requires i < |files|
    ensures Then(ReadInner(files[..i]), files[i], i == |files| - 1).records <= ReadAll(files).records
  {
    hide ReadFile;
    var n := |files| - 1;
    if i < n {
      assert files[..i + 1][..i] == files[..i] && files[..n][..i + 1] == files[..i + 1];
      InnerGrows(files[..n], i + 1);
    }
  }

  lemma HeardGrows(fails: Option<nat>, r: Reading, whole: Reading)
    requires r.records <= whole.records && fails.Some? && fails.value < |r.records|
    ensures HeardBy(fails, r) == HeardBy(fails, whole)
  {
  }

  method ReadFiles(files: seq<DiskFile>, fails: Option<nat>)
    returns (stats: Stats, out: seq<Record>, err: Option<ReplayError>)
    ensures HeardBy(fails, ReadAll(files)) == Reading(out, stats.truncated, err) && Counts(stats, out)
  {
    hide ReadFile;
    stats, out, err := Stats(0, 0, 0, false), [], None;
    for i := 0 to |files|
      invariant Counts(stats, out) && err == None && (fails.Some? ==> |out| <= fails.value)
      invariant i < |files| ==> !stats.truncated && ReadInner(files[..i]) == Reading(out, false, None)
      invariant i == |files| ==> ReadAll(files) == Reading(out, stats.truncated, None)
    {
      assert files[..i + 1][..i] == files[..i];
      if i < |files| - 1 { InnerWhole(files[..i + 1]); }
      ghost var next := Then(ReadInner(files[..i]), files[i], i == |files| - 1);
      var truncated: bool;
      stats, out, truncated, err := ReplayFile(files[i], i == |files| - 1, stats, out, fails);
      if err.Some? {
        if fails.Some? && fails.value < |next.records| {
          ReadGrows(files, i);
          HeardGrows(fails, next, ReadAll(files));
        } else {
          InnerFails(files, i);
          ErrorReadsWhole(files[i], i == |files| - 1);
        }
        return;
      }
      if truncated {
        stats := stats.(truncated := true);
        break;
      }
    }
  }

  lemma ErrorReadsWhole(f: DiskFile, isLast: bool)
    ensures ReadFile(f, isLast).err.Some? ==> !ReadFile(f, isLast).truncated
    ensures !isLast ==> !ReadFile(f, isLast).truncated
  {
  }

  lemma {:induction false} ReadErrors(files: seq<DiskFile>)
    ensures ReadInner(files).err !in {Some(NoFiles), Some(BadName), Some(MissingSequence)}
    ensures ReadAll(files).err !in {Some(NoFiles), Some(BadName), Some(MissingSequence)}
  {
    if files != [] {
      ReadErrors(files[..|files| - 1]);
    }
  }

  lemma ArrangedNamed(runID: string, found: seq<DiskFile>, order: seq<DiskFile>)
    requires Arranged(runID, found, order)
    ensures AllNamed(runID, found)
  {
    hide NumberOf;
    forall i | 0 <= i < |found| ensures NumberOf(runID, found[i].name).Some? {
      assert found[i] in multiset(order);
    }
  }

  /** Finds the files' numbers and sorts by them. */
  method SortByNumber(runID: string, found: seq<DiskFile>) returns (fs: Option<seq<DiskFile>>)
    ensures fs.Some? <==> AllNamed(runID, found)
    ensures fs.Some? ==> ByNumber(runID, fs.value) && multiset(fs.value) == multiset(found)
  {
    hide Num, NumberOf;
    var sorted: seq<DiskFile> := [];
    for i := 0 to |found|
      invariant ByNumber(runID, sorted) && multiset(sorted) == multiset(found[..i])
      invariant forall k :: 0 <= k < i ==> NumberOf(runID, found[k].name).Some?
    {
      if NumberOf(runID, found[i].name) == None {
        return None;
      }
      assert found[..i + 1] == found[..i] + [found[i]];
      InsertKeeps(runID, sorted, found[i]);
      sorted := Insert(runID, sorted, found[i]);
    }
    assert found[..|found|] == found;
    return Some(sorted);
  }

  /** The files of a directory that match the run's pattern. */
  function Globbed(runID: string, dir: seq<DiskFile>): seq<DiskFile> {
    if dir == [] then []
    else
      var last := dir[|dir| - 1];
      Globbed(runID, dir[..|dir| - 1]) + if Globs(runID, last.name) then [last] else []
  }

  method Glob(runID: string, dir: seq<DiskFile>) returns (found: seq<DiskFile>)
    ensures found == Globbed(runID, dir)
  {
    hide Globs;
    found := [];
    for i := 0 to |dir|
      invariant found == Globbed(runID, dir[..i])
    {
      assert dir[..i + 1][..i] == dir[..i];
      if Globs(runID, dir[i].name) {
        found := found + [dir[i]];
      }
    }
    assert dir[..|dir|] == dir;
  }

  /** Replays a run of a directory, whatever else is in it. Call number `fails` of the callback is the first to return
      an error, if any does. */
  method ReplayRun(runID: string, dir: seq<DiskFile>, fails: Option<nat>)
    returns (stats: Stats, out: seq<Record>, err: Option<ReplayError>)
    ensures var found := Globbed(runID, dir);
      && (found == [] <==> err == Some(NoFiles))
      && (err == Some(BadName) <==> !AllNamed(runID, found))
      && (err == Some(MissingSequence) <==>
            found != [] && AllNamed(runID, found) && forall order :: !Arranged(runID, found, order))
      && forall order :: found != [] && Arranged(runID, found, order) ==>
           HeardBy(fails, ReadAll(order)) == Reading(out, stats.truncated, err)
    ensures Counts(stats, out)
  {
    var found := Glob(runID, dir);
    stats, out, err := ReplayFound(runID, found, fails);
  }

  /** Finds each file's number, requires them to be 0 to n-1, then reads file after file, stopping at the first that is
      cut or damaged. The files are found in any order. */
  method ReplayFound(runID: string, found: seq<DiskFile>, fails: Option<nat>)
    returns (stats: Stats, out: seq<Record>, err: Option<ReplayError>)
    ensures found == [] <==> err == Some(NoFiles)
    ensures err == Some(BadName) <==> !AllNamed(runID, found)
    ensures err == Some(MissingSequence) <==>
      found != [] && AllNamed(runID, found) && forall order :: !Arranged(runID, found, order)
    ensures forall order :: found != [] && Arranged(runID, found, order) ==>
      HeardBy(fails, ReadAll(order)) == Reading(out, stats.truncated, err)
    ensures Counts(stats, out)
  {
    hide NumberOf, ByNumber, AllNamed;
    stats, out := Stats(0, 0, 0, false), [];
    if found == [] {
      NoneNamed(runID);
      return stats, out, Some(NoFiles);
    }
    forall order | Arranged(runID, found, order) ensures AllNamed(runID, found) {
      ArrangedNamed(runID, found, order);
    }
    var fs := SortByNumber(runID, found);
    if fs == None {
      return stats, out, Some(BadName);
    }
    var contiguous := IsContiguous(runID, fs.value);
    forall order | Arranged(runID, found, order) ensures contiguous && fs.value == order {
      SortedIsArranged(runID, fs.value, order);
      ArrangedNumbers(runID, found, order);
    }
    if !contiguous {
      return stats, out, Some(MissingSequence);
    }
    ReadErrors(fs.value);
    NumbersArranged(runID, found, fs.value);
    stats, out, err := ReadFiles(fs.value, fails);
  }

  lemma NoneNamed(runID: string)
    ensures AllNamed(runID, [])
  {
  }

  lemma ArrangedNumbers(runID: string, found: seq<DiskFile>, order: seq<DiskFile>)
    requires Arranged(runID, found, order)
    ensures forall i :: 0 <= i < |order| ==> Num(runID, order[i]) == i
  {
  }

  lemma NumbersArranged(runID: string, found: seq<DiskFile>, fs: seq<DiskFile>)
    requires multiset(fs) == multiset(found) && forall i :: 0 <= i < |fs| ==> Num(runID, fs[i]) == i
    ensures Arranged(runID, found, fs)
  {
  }

  /** The files of a finished run, found in any order, are arranged as they were written. */
  lemma {:induction false} WrittenIsArranged(runID: string, files: seq<File>, found: seq<DiskFile>)
    requires Numbered(files, runID) && |files| <= MAX_INT64 && multiset(found) == multiset(AllIntact(files))
    ensures Arranged(runID, found, AllIntact(files))
  {
    hide NumberOf, FileName, ParseCaptureName;
    forall i | 0 <= i < |files| ensures NumberOf(runID, AllIntact(files)[i].name) == Some(i) {
      NameRoundTrip(runID, i);
    }
  }

  /** What the recorder finished is what a replay hands on, record by record. */
  lemma {:induction false} WrittenReads(runID: string, files: seq<File>)
    requires Numbered(files, runID) && runID != ""
    ensures ReadAll(AllIntact(files)) == Reading(AllRecords(files), false, None)
  {
    IntactReplay(files);
  }

  lemma {:induction false} ArrangedInOrder(runID: string, found: seq<DiskFile>, order: seq<DiskFile>)
    requires Arranged(runID, found, order)
    ensures ByNumber(runID, order)
  {
  }

  // ---------- A run among other runs ----------

  /** A file of another complete run. */
  datatype Foreign = Foreign(run: string, number: nat, file: DiskFile)

  ghost predicate OtherRuns(runID: string, others: seq<Foreign>) {
    forall i :: 0 <= i < |others| ==>
      && others[i].run != runID && others[i].number <= MAX_INT64
      && others[i].file.name == FileName(others[i].run, others[i].number)
  }

  function FilesIn(others: seq<Foreign>): (fs: seq<DiskFile>)
    ensures |fs| == |others| && forall i :: 0 <= i < |fs| ==> fs[i] == others[i].file
  {
    if others == [] then [] else FilesIn(others[..|others| - 1]) + [others[|others| - 1].file]
  }

  /** The run shares its directory, in any order, with others. */
  ghost predicate Shares(runID: string, files: seq<File>, others: seq<Foreign>, dir: seq<DiskFile>) {
    && Numbered(files, runID) && |files| <= MAX_INT64 && OtherRuns(runID, others)
    && multiset(dir) == multiset(AllIntact(files)) + multiset(FilesIn(others))
  }

  predicate Extends(other: string, runID: string) {
    (runID + "-") <= other
  }

  lemma {:induction false} GlobbedHas(runID: string, dir: seq<DiskFile>, f: DiskFile)
    ensures multiset(Globbed(runID, dir))[f] == if Globs(runID, f.name) then multiset(dir)[f] else 0
  {
    hide Globs;
    if dir != [] {
      GlobbedHas(runID, dir[..|dir| - 1], f);
      assert dir == dir[..|dir| - 1] + [dir[|dir| - 1]];
    }
  }

  lemma {:induction false} OwnFileFound(runID: string, files: seq<File>, others: seq<Foreign>, dir: seq<DiskFile>, i: nat)
    requires Shares(runID, files, others, dir) && i < |files|
    ensures Intact(files[i]) in Globbed(runID, dir)
    ensures NumberOf(runID, Intact(files[i]).name) == Some(i)
  {
    hide Globs, FileName, NumberOf;
    var f := AllIntact(files)[i];
    assert f in multiset(AllIntact(files));
    GlobsIff(runID, runID, i);
    NameRoundTrip(runID, i);
    GlobbedHas(runID, dir, f);
    assert f in multiset(Globbed(runID, dir));
  }

  lemma {:induction false} OtherFileFound(runID: string, files: seq<File>, others: seq<Foreign>, dir: seq<DiskFile>, i: nat)
    requires Shares(runID, files, others, dir) && i < |others| && Extends(others[i].run, runID)
    ensures others[i].file in Globbed(runID, dir)
  {
    hide Globs, FileName, NumberOf;
    var f := FilesIn(others)[i];
    assert f in multiset(FilesIn(others));
    GlobsIff(runID, others[i].run, others[i].number);
    GlobbedHas(runID, dir, f);
    assert f in multiset(Globbed(runID, dir));
  }

  /** When no other run's id extends this one's by a hyphen, exactly its own files are found. */
  lemma {:induction false} OnlyOwnFound(runID: string, files: seq<File>, others: seq<Foreign>, dir: seq<DiskFile>)
    requires Shares(runID, files, others, dir)
    requires forall i :: 0 <= i < |others| ==> !Extends(others[i].run, runID)
    ensures multiset(Globbed(runID, dir)) == multiset(AllIntact(files))
  {
    hide Globs, FileName, Intact, Extends;
    forall f ensures multiset(Globbed(runID, dir))[f] == multiset(AllIntact(files))[f] {
      GlobbedHas(runID, dir, f);
      if f in AllIntact(files) {
        var i :| 0 <= i < |files| && AllIntact(files)[i] == f;
        OwnMatches(runID, files, i);
        OthersUnmatched(runID, others, f);
      } else if f in FilesIn(others) {
        OthersUnmatched(runID, others, f);
      }
    }
  }

  lemma OwnMatches(runID: string, files: seq<File>, i: nat)
    requires Numbered(files, runID) && i < |files|
    ensures Globs(runID, AllIntact(files)[i].name)
  {
    hide Globs, FileName;
    GlobsIff(runID, runID, i);
  }

  lemma {:induction false} OthersUnmatched(runID: string, others: seq<Foreign>, f: DiskFile)
    requires OtherRuns(runID, others) && forall i :: 0 <= i < |others| ==> !Extends(others[i].run, runID)
    ensures f in FilesIn(others) ==> !Globs(runID, f.name)
  {
    hide Globs, FileName;
    if f in FilesIn(others) {
      var i :| 0 <= i < |others| && FilesIn(others)[i] == f;
      GlobsIff(runID, others[i].run, others[i].number);
    }
  }

  /** A complete run that shares its directory reads back, all of it, if and only if no other run's id extends its own by
      a hyphen. */
  lemma {:induction false} ReadableBesideIff(runID: string, files: seq<File>, others: seq<Foreign>, dir: seq<DiskFile>)
    requires Shares(runID, files, others, dir) && runID != ""
    ensures (exists order :: Arranged(runID, Globbed(runID, dir), order))
      <==> forall i :: 0 <= i < |others| ==> !Extends(others[i].run, runID)
    ensures forall order :: Arranged(runID, Globbed(runID, dir), order) ==>
      ReadAll(order) == Reading(AllRecords(files), false, None)
    // Which error it is otherwise: a name without a number, unless every such id ends at the hyphen.
    ensures AllNamed(runID, Globbed(runID, dir)) <==>
      forall i :: 0 <= i < |others| && Extends(others[i].run, runID) ==> others[i].run == runID + "-"
  {
    hide Globs, FileName, NumberOf, Extends, ReadAll, Intact, AllNamed, Arranged;
    if i :| 0 <= i < |others| && Extends(others[i].run, runID) {
      forall order ensures !Arranged(runID, Globbed(runID, dir), order) {
        NotArranged(runID, files, others, dir, i, order);
      }
    } else {
      OnlyOwnFound(runID, files, others, dir);
      WrittenIsArranged(runID, files, Globbed(runID, dir));
      WrittenReads(runID, files);
      forall order | Arranged(runID, Globbed(runID, dir), order) ensures order == AllIntact(files) {
        OneArrangement(runID, Globbed(runID, dir), AllIntact(files), order);
      }
    }
    NamesBeside(runID, files, others, dir);
  }

  lemma {:induction false} OneArrangement(runID: string, found: seq<DiskFile>, a: seq<DiskFile>, b: seq<DiskFile>)
    requires Arranged(runID, found, a) && Arranged(runID, found, b)
    ensures a == b
  {
    hide NumberOf;
    ArrangedInOrder(runID, found, a);
    SortedIsArranged(runID, a, b);
  }

  lemma ArrangedAt(runID: string, found: seq<DiskFile>, order: seq<DiskFile>, f: DiskFile) returns (j: nat)
    requires Arranged(runID, found, order) && f in found
    ensures j < |order| && order[j] == f && NumberOf(runID, f.name) == Some(j)
  {
    hide NumberOf;
    assert f in multiset(order);
    j :| 0 <= j < |order| && order[j] == f;
  }

  /** The file of an extending run has no number, a negative one, or the number of this run's first file. */
  lemma {:induction false} NotArranged(runID: string, files: seq<File>, others: seq<Foreign>, dir: seq<DiskFile>, i: nat,
                                       order: seq<DiskFile>)
    requires Shares(runID, files, others, dir) && i < |others| && Extends(others[i].run, runID)
    ensures !Arranged(runID, Globbed(runID, dir), order)
  {
    hide Globs, FileName, NumberOf, Arranged;
    var f, own, found := others[i].file, Intact(files[0]), Globbed(runID, dir);
    if Arranged(runID, found, order) {
      OtherFileFound(runID, files, others, dir, i);
      OwnFileFound(runID, files, others, dir, 0);
      var j := ArrangedAt(runID, found, order, f);
      var k := ArrangedAt(runID, found, order, own);
      ExtendingNumber(runID, others[i].run, others[i].number);
      NamesDiffer(runID, others[i].run, others[i].number);
    }
  }

  lemma {:induction false} ExtendingNumber(runID: string, other: string, n: nat)
    requires Extends(other, runID) && n <= MAX_INT64
    ensures var number := NumberOf(runID, FileName(other, n));
      if other == runID + "-" then number.Some? && number.value + n == 0 else number == None
  {
    hide FileName, NumberOf;
    var more := other[|runID| + 1..];
    assert other == runID + "-" + more;
    if more == "" {
      HyphenRunClashes(runID, n);
    } else {
      LongerRunClashes(runID, more, n);
    }
  }

  lemma {:induction false} NamesDiffer(runID: string, other: string, n: nat)
    requires other != runID && n <= MAX_INT64
    ensures FileName(other, n) != FileName(runID, 0)
  {
    hide FileName, ParseCaptureName;
    NameRoundTrip(other, n);
    NameRoundTrip(runID, 0);
  }

  lemma {:induction false} NamesBeside(runID: string, files: seq<File>, others: seq<Foreign>, dir: seq<DiskFile>)
    requires Shares(runID, files, others, dir)
    ensures AllNamed(runID, Globbed(runID, dir)) <==>
      forall i :: 0 <= i < |others| && Extends(others[i].run, runID) ==> others[i].run == runID + "-"
  {
    hide Globs, FileName, NumberOf, Extends, Intact;
    var found := Globbed(runID, dir);
    if i :| 0 <= i < |others| && Extends(others[i].run, runID) && others[i].run != runID + "-" {
      OtherFileFound(runID, files, others, dir, i);
      ExtendingNumber(runID, others[i].run, others[i].number);
      var j :| 0 <= j < |found| && found[j] == others[i].file;
      assert NumberOf(runID, found[j].name) == None;
    } else {
      forall j | 0 <= j < |found| ensures NumberOf(runID, found[j].name).Some? {
        FoundIsNamed(runID, files, others, dir, found[j]);
      }
    }
  }

  lemma {:induction false} FoundIsNamed(runID: string, files: seq<File>, others: seq<Foreign>, dir: seq<DiskFile>, f: DiskFile)
    requires Shares(runID, files, others, dir) && f in Globbed(runID, dir)
    requires forall i :: 0 <= i < |others| && Extends(others[i].run, runID) ==> others[i].run == runID + "-"
    ensures NumberOf(runID, f.name).Some?
  {
    hide Globs, FileName, NumberOf, Extends, Intact;
    GlobbedHas(runID, dir, f);
    assert f in multiset(Globbed(runID, dir));
    assert f in multiset(dir);
    if f in AllIntact(files) {
      var i :| 0 <= i < |files| && AllIntact(files)[i] == f;
      OwnFileFound(runID, files, others, dir, i);
    } else {
      var i :| 0 <= i < |others| && FilesIn(others)[i] == f;
      GlobsIff(runID, others[i].run, others[i].number);
      ExtendsIs(others[i].run, runID);
      ExtendingNumber(runID, others[i].run, others[i].number);
    }
  }

  lemma ExtendsIs(other: string, runID: string)
    ensures Extends(other, runID) <==> (runID + "-") <= other
  {
  }

  /** Offer, record, rotate, close, find, sort, read, apply: what a stopped recorder wrote accounts for every offer it
      was made, and on a run without a loss the replayed books are the live engine's. */
  lemma {:induction false} TapeDrivesEngine(cfg: Config, books: Books, w: Writer, others: seq<Foreign>, dir: seq<DiskFile>,
                                            order: seq<DiskFile>)
    requires w.Valid() && !w.failed && w.cap.hand == Stopped && w.runID != ""
    requires w.late == None && w.dropCnt == 0
    requires Shares(w.runID, w.files, others, dir) && Arranged(w.runID, Globbed(w.runID, dir), order)
    ensures var r := ReadAll(order);
      && r.err == None && !r.truncated && |EventsOf(r.records)| + GapSum(r.records) == |w.log|
      && (GapSum(r.records) == 0 ==> RunBooks(cfg, books, EventsOf(r.records)) == RunBooks(cfg, books, w.log))
  {
    hide NumberOf, ReadAll, Inv, FilesTranscribe, RunBooks, Globbed, Arranged, Extends, Tape;
    ReadableBesideIff(w.runID, w.files, others, dir);
    StoppedRecords(w.files, w.cap, w.log);
  }
}
