/** The startup-phase line that crosses the process boundary between the server
    child and the launcher. */
module PhaseWire {
  import opened Basics
  import opened Text

  datatype StartupPhase =
    | CheckingVersion
    | CheckingFreeSpace
    | CreatingBackup
    | VerifyingBackup
    | UpgradingStructure
    | RebuildingFingerprints(done: u64, total: u64)
    | ComputingTypedColumns(done: u64, total: u64)
    | VerifyingUpgrade

  const PREFIX := "[base-search] phase "

  function WireName(p: StartupPhase): string {
    match p
    case CheckingVersion => "checking_version"
    case CheckingFreeSpace => "checking_free_space"
    case CreatingBackup => "creating_backup"
    case VerifyingBackup => "verifying_backup"
    case UpgradingStructure => "upgrading_structure"
    case RebuildingFingerprints(_, _) => "rebuilding_fingerprints"
    case ComputingTypedColumns(_, _) => "computing_typed_columns"
    case VerifyingUpgrade => "verifying_upgrade"
  }

  function FromWire(name: string, done: u64, total: u64): Option<StartupPhase> {
    if name == "checking_version" then Some(CheckingVersion)
    else if name == "checking_free_space" then Some(CheckingFreeSpace)
    else if name == "creating_backup" then Some(CreatingBackup)
    else if name == "verifying_backup" then Some(VerifyingBackup)
    else if name == "upgrading_structure" then Some(UpgradingStructure)
    else if name == "rebuilding_fingerprints" then Some(RebuildingFingerprints(done, total))
    else if name == "computing_typed_columns" then Some(ComputingTypedColumns(done, total))
    else if name == "verifying_upgrade" then Some(VerifyingUpgrade)
    else None
  }

  function Progress(p: StartupPhase): Option<(u64, u64)> {
    match p
    case RebuildingFingerprints(done, total) => Some((done, total))
    case ComputingTypedColumns(done, total) => Some((done, total))
    case _ => None
  }

  function Counts(p: StartupPhase): (u64, u64) {
    match Progress(p)
    case Some(counts) => counts
    case None => (0, 0)
  }

  function WireLine(p: StartupPhase): string {
    PREFIX + (WireName(p) + (" " + (ToDecimal(Counts(p).0) + (" " + ToDecimal(Counts(p).1)))))
  }

  function ParseWireLine(line: string): Option<StartupPhase> {
    var trimmed := Trim(line);
    if !(PREFIX <= trimmed) then None
    else ParseRest(trimmed[|PREFIX|..])
  }

  /** Names are made of lower-case letters and underscores. */
  predicate IsName(s: string) {
    s != "" && forall i :: 0 <= i < |s| ==> 'a' <= s[i] <= 'z' || s[i] == '_'
  }

  lemma NamesAreWords(s: string)
    requires IsName(s)
    ensures NoSpace(s)
  {
  }

  lemma WireNameIsName(p: StartupPhase)
    ensures IsName(WireName(p))
  {
    if p.CheckingVersion? || p.CheckingFreeSpace? || p.CreatingBackup? || p.VerifyingBackup? {
      CheckNamesAreNames(p);
    } else if Progress(p).Some? {
      CountedNamesAreNames(p);
    } else {
      UpgradeNamesAreNames(p);
    }
  }

  lemma CheckNamesAreNames(p: StartupPhase)
    requires p.CheckingVersion? || p.CheckingFreeSpace? || p.CreatingBackup? || p.VerifyingBackup?
    ensures IsName(WireName(p))
  {
  }

  lemma UpgradeNamesAreNames(p: StartupPhase)
    requires p.UpgradingStructure? || p.VerifyingUpgrade?
    ensures IsName(WireName(p))
  {
  }

  lemma CountedNamesAreNames(p: StartupPhase)
    requires p.RebuildingFingerprints? || p.ComputingTypedColumns?
    ensures IsName(WireName(p))
  {
  }

  lemma KnownNamesParse(p: StartupPhase, done: u64, total: u64)
    requires Progress(p).Some? ==> Progress(p) == Some((done, total))
    ensures FromWire(WireName(p), done, total) == Some(p)
  {
  }

  /** What the reader does once the prefix is off. */
  function ParseRest(rest: string): Option<StartupPhase> {
    var parts := Words(rest);
    if |parts| < 3 then None
    else match (ParseU64(parts[1]), ParseU64(parts[2]))
      case (Some(done), Some(total)) => FromWire(parts[0], done, total)
      case _ => None
  }

  /** Splitting the part after the prefix gives back the three printed words. */
  lemma LineSplits(name: string, done: string, total: string)
    requires name != "" && NoSpace(name)
    requires done != "" && AllDigits(done) && total != "" && AllDigits(total)
    ensures Words(name + (" " + (done + (" " + total)))) == [name, done, total]
  {
    DigitsAreNotSpace(done);
    DigitsAreNotSpace(total);
    var afterDone := " " + total;
    var afterName := " " + (done + afterDone);
    FirstWord(name, afterName);
    assert afterName[1..] == done + afterDone;
    FirstWord(done, afterDone);
    assert afterDone[1..] == total;
    FirstWord(total, "");
    assert total + "" == total;
  }

  /** The surrounding whitespace and the prefix come off exactly. */
  lemma PrefixComesOff(prefix: string, rest: string, before: string, after: string)
    requires prefix != "" && !IsSpace(prefix[0])
    requires rest != "" && !IsSpace(rest[|rest| - 1])
    requires AllSpace(before) && AllSpace(after)
    ensures var trimmed := Trim(before + (prefix + rest) + after);
            prefix <= trimmed && trimmed[|prefix|..] == rest
  {
    TrimPadded(before, prefix + rest, after);
  }

  lemma PrintedRestParses(name: string, done: u64, total: u64, p: StartupPhase)
    requires name != "" && NoSpace(name)
    requires FromWire(name, done, total) == Some(p)
    ensures ParseRest(name + (" " + (ToDecimal(done) + (" " + ToDecimal(total))))) == Some(p)
  {
    LineSplits(name, ToDecimal(done), ToDecimal(total));
    ParseDecimal(done);
    ParseDecimal(total);
  }

  lemma PrintedRestEnds(name: string, done: string, total: string)
    requires AllDigits(total) && total != ""
    ensures var rest := name + (" " + (done + (" " + total)));
            rest != "" && !IsSpace(rest[|rest| - 1])
  {
    DigitsAreNotSpace(total);
    var rest := name + (" " + (done + (" " + total)));
    assert rest[|rest| - 1] == total[|total| - 1];
  }

  /** Every phase survives the trip, whatever the counts and whatever whitespace
      (a carriage return, say) the pipe leaves around the line. */
  lemma RoundTrip(p: StartupPhase, before: string, after: string)
    requires AllSpace(before) && AllSpace(after)
    ensures ParseWireLine(before + WireLine(p) + after) == Some(p)
  {
    var name, counts := WireName(p), Counts(p);
    WireNameIsName(p);
    NamesAreWords(name);
    KnownNamesParse(p, counts.0, counts.1);
    PrintedRestParses(name, counts.0, counts.1, p);
    PrintedRestEnds(name, ToDecimal(counts.0), ToDecimal(counts.1));
    var rest := name + (" " + (ToDecimal(counts.0) + (" " + ToDecimal(counts.1))));
    PrefixComesOff(PREFIX, rest, before, after);
  }

  /** Two phases never share a line. */
  lemma LinesAreDistinct(line: string, p: StartupPhase, q: StartupPhase)
    requires line == WireLine(p) == WireLine(q)
    ensures p == q
  {
    RoundTrip(p, "", "");
    RoundTrip(q, "", "");
  }

  lemma NamedPhase(name: string, done: u64, total: u64, p: StartupPhase)
    requires FromWire(name, done, total) == Some(p)
    ensures WireName(p) == name
    ensures Progress(p).Some? ==> Progress(p) == Some((done, total))
  {
  }

  /** Ordinary output is not read as a phase: an accepted line carries the prefix,
      the name of the phase it is read as, and that phase's own counts. */
  lemma AcceptedLines(line: string, p: StartupPhase)
    requires ParseWireLine(line) == Some(p)
    ensures PREFIX <= Trim(line)
    ensures var parts := Words(Trim(line)[|PREFIX|..]);
            |parts| >= 3 && parts[0] == WireName(p) &&
            ParseU64(parts[1]).Some? && ParseU64(parts[2]).Some? &&
            (Progress(p).Some? ==>
               Progress(p) == Some((ParseU64(parts[1]).value, ParseU64(parts[2]).value)))
  {
    AcceptedRest(Trim(line)[|PREFIX|..], p);
  }

  lemma AcceptedRest(rest: string, p: StartupPhase)
    requires ParseRest(rest) == Some(p)
    ensures var parts := Words(rest);
            |parts| >= 3 && parts[0] == WireName(p) &&
            ParseU64(parts[1]).Some? && ParseU64(parts[2]).Some? &&
            (Progress(p).Some? ==>
               Progress(p) == Some((ParseU64(parts[1]).value, ParseU64(parts[2]).value)))
  {
    var parts := Words(rest);
    NamedPhase(parts[0], ParseU64(parts[1]).value, ParseU64(parts[2]).value, p);
  }
}
