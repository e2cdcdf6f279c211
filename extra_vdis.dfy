/**
 * The `--extra-vdis` option: a comma-separated list of `sr:sizeMB` or
 * bare `sizeMB` entries. This module parses it as
 * `check_free_disk_space_extra_vdis` and `create_extra_vdis` do, totals
 * the requested bytes per SR key and runs the storage check on the totals.
 */
module ExtraVdis {
  import opened Wrappers
  import opened Xen
  import opened RubyStrings
  import opened RubyCollections
  import opened StorageAdmission

  /** One parsed entry: an SR name (none for a bare size, meaning the pool default) and a size in MiB. */
  datatype VdiSpec = VdiSpec(sr: Option<string>, sizeMiB: nat)

  /** `config[:extra_vdis].strip.chomp.split(',')`. */
  function Entries(option: string): seq<string> {
    Split(Chomp(Strip(option)), ',')
  }

  /**
   * One entry. With a colon it is `sr, size = vdi.split(':')`: the first
   * two `:`-fields, later ones ignored, a missing size read as `nil`.
   * The size must be a string of digits, otherwise "Invalid VDI size".
   */
  function ParseEntry(entry: string): (r: Result<VdiSpec, Error>)
    ensures r.Err? ==> r.error == InvalidVdiSize
  {
    if ':' in entry then
      var parts := Split(entry, ':');
      if |parts| < 2 || !IsDigits(parts[1]) then Err(InvalidVdiSize)
      else Ok(VdiSpec(Some(parts[0]), DigitsValue(parts[1])))
    else if !IsDigits(entry) then Err(InvalidVdiSize)
    else Ok(VdiSpec(None, DigitsValue(entry)))
  }

  /** The entry a spec is written as on the command line. */
  function FormatEntry(v: VdiSpec): string {
    match v.sr
    case None => DecimalString(v.sizeMiB)
    case Some(name) => name + ":" + DecimalString(v.sizeMiB)
  }

  /** `sr:size` with a colon-free SR name and a digit string for the size names that SR and size. */
  lemma ParseNamedEntry(name: string, size: string)
    requires ':' !in name && IsDigits(size)
    ensures ParseEntry(name + ":" + size) == Ok(VdiSpec(Some(name), DigitsValue(size)))
  {
    var entry := name + ":" + size;
    assert entry[|name|] == ':';
    assert ':' !in size by {
      forall i | 0 <= i < |size| ensures size[i] != ':' { assert IsDigit(size[i]); }
    }
    assert [name, size][1..] == [size];
    assert entry == Join([name, size], ':');
    SplitJoin([name, size], ':');
  }

  /** Parsing an entry written for a spec gives the spec back, for any SR name without a colon. */
  lemma ParseFormatEntry(v: VdiSpec)
    requires v.sr.Some? ==> ':' !in v.sr.value
    ensures ParseEntry(FormatEntry(v)) == Ok(v)
  {
    var digits := DecimalString(v.sizeMiB);
    DecimalStringValue(v.sizeMiB);
    match v.sr
    case None =>
      assert ':' !in digits by {
        forall i | 0 <= i < |digits| ensures digits[i] != ':' { assert IsDigit(digits[i]); }
      }
    case Some(name) =>
      ParseNamedEntry(name, digits);
  }

  /** `parts[i]`, or `nil` past the end, as a multiple assignment from an array reads it. */
  function FieldOrNil(parts: seq<string>, i: nat): Option<string> {
    if i < |parts| then Some(parts[i]) else None
  }

  /** The `sr` an entry names: the first `:`-field, or `nil` when there is no colon. */
  function SrField(entry: string): Option<string> {
    if ':' in entry then FieldOrNil(Split(entry, ':'), 0) else None
  }

  /** The `size` the source tests: the second `:`-field (`nil` when missing), or the whole entry when there is no colon. */
  function SizeField(entry: string): Option<string> {
    if ':' in entry then FieldOrNil(Split(entry, ':'), 1) else Some(entry)
  }

  /**
   * With the digits-only size test, an entry is accepted exactly when its
   * `size` field is present and all digits; String#to_i then reads exactly
   * that size, and the SR is the entry's `sr` field.
   */
  lemma ParseEntryReadsWholeSize(entry: string)
    ensures ParseEntry(entry).Ok? <==> SizeField(entry).Some? && IsDigits(SizeField(entry).value)
    ensures ParseEntry(entry).Ok? ==> ToI(SizeField(entry).value) == ParseEntry(entry).value.sizeMiB
    ensures ParseEntry(entry).Ok? ==> ParseEntry(entry).value.sr == SrField(entry)
  {
    if ParseEntry(entry).Ok? {
      ToIOfDigits(SizeField(entry).value);
    }
  }

  /** All entries in order; any invalid one makes the whole list invalid. */
  function ParseEntries(entries: seq<string>): (r: Result<seq<VdiSpec>, Error>)
    ensures r.Ok? ==> |r.value| == |entries|
                      && forall i :: 0 <= i < |entries| ==> ParseEntry(entries[i]) == Ok(r.value[i])
    ensures r.Err? <==> exists i :: 0 <= i < |entries| && ParseEntry(entries[i]).Err?
    ensures r.Err? ==> r.error == InvalidVdiSize
    decreases |entries|
  {
    if |entries| == 0 then Ok([])
    else
      var init := entries[..|entries| - 1];
      assert forall i :: 0 <= i < |init| ==> init[i] == entries[i];
      match ParseEntries(init)
      case Err(e) => Err(e)
      case Ok(specs) =>
        match ParseEntry(entries[|entries| - 1])
        case Err(e) => Err(e)
        case Ok(v) => Ok(specs + [v])
  }

  /** The hash key a spec's bytes are totalled under: its SR name, or `default` for a bare size. */
  function TotalsKey(v: VdiSpec): string {
    v.sr.GetOr("default")
  }

  /** The (key, bytes) pair a spec adds to `total_sr_bsize`; sizes are MiB, so bytes are MiB * 1024 * 1024. */
  function Request(v: VdiSpec): (string, nat) {
    (TotalsKey(v), v.sizeMiB * MiB)
  }

  function Requests(specs: seq<VdiSpec>): (r: seq<(string, nat)>)
    ensures |r| == |specs| && forall i :: 0 <= i < |specs| ==> r[i] == Request(specs[i])
  {
    seq(|specs|, i requires 0 <= i < |specs| => Request(specs[i]))
  }

  /** The per-key byte totals for a list of entries, or the parse error. */
  function TotalsOf(entries: seq<string>): Result<Totals, Error> {
    match ParseEntries(entries)
    case Err(e) => Err(e)
    case Ok(specs) => Ok(Group(Requests(specs)))
  }

  /** The per-key byte totals for an `--extra-vdis` value, or the parse error. */
  function ExtraVdiTotals(option: string): Result<Totals, Error> {
    TotalsOf(Entries(option))
  }

  /** An entry that does not parse makes the whole list fail. */
  lemma TotalsOfErr(entries: seq<string>, i: nat)
    requires i < |entries| && ParseEntry(entries[i]).Err?
    ensures TotalsOf(entries) == Err(InvalidVdiSize)
  {
  }

  /** The sum of the MiB sizes of the specs totalled under `k`. */
  function MiBFor(specs: seq<VdiSpec>, k: string): nat {
    if |specs| == 0 then 0
    else MiBFor(specs[..|specs| - 1], k) + (if TotalsKey(specs[|specs| - 1]) == k then specs[|specs| - 1].sizeMiB else 0)
  }

  lemma {:induction false} BytesAreMiBSums(specs: seq<VdiSpec>, k: string)
    ensures SumFor(Requests(specs), k) == MiBFor(specs, k) * MiB
    decreases |specs|
  {
    if |specs| > 0 {
      var init := specs[..|specs| - 1];
      BytesAreMiBSums(init, k);
      assert Requests(specs)[..|specs| - 1] == Requests(init);
      var last := specs[|specs| - 1];
      if TotalsKey(last) == k {
        calc {
          SumFor(Requests(specs), k);
          SumFor(Requests(init), k) + last.sizeMiB * MiB;
          MiBFor(init, k) * MiB + last.sizeMiB * MiB;
          (MiBFor(init, k) + last.sizeMiB) * MiB;
        }
      }
    }
  }

  /**
   * What `total_sr_bsize` holds: one entry per distinct key (SR name, or
   * `default` for bare sizes), each the sum of that key's sizes in MiB
   * times 1024 * 1024.
   */
  lemma ExtraVdiTotalsMeaning(option: string, k: string)
    requires ParseEntries(Entries(option)).Ok?
    ensures var specs := ParseEntries(Entries(option)).value;
            var totals := ExtraVdiTotals(option).value;
            && DistinctKeys(totals)
            && (HasKey(totals, k) <==> exists i :: 0 <= i < |specs| && TotalsKey(specs[i]) == k)
            && Get(totals, k) == MiBFor(specs, k) * MiB
  {
    var specs := ParseEntries(Entries(option)).value;
    BytesAreMiBSums(specs, k);
    var rs := Requests(specs);
    GroupSpec(rs);
    assert HasKey(rs, k) ==> exists i :: 0 <= i < |specs| && TotalsKey(specs[i]) == k;
    assert (exists i :: 0 <= i < |specs| && TotalsKey(specs[i]) == k) ==> HasKey(rs, k) by {
      if i :| 0 <= i < |specs| && TotalsKey(specs[i]) == k {
        assert rs[i].0 == k;
      }
    }
  }

  lemma ParseEntriesSnoc(entries: seq<string>, entry: string)
    ensures ParseEntries(entries + [entry])
         == match ParseEntries(entries)
            case Err(e) => Err(e)
            case Ok(specs) =>
              match ParseEntry(entry)
              case Err(e) => Err(e)
              case Ok(v) => Ok(specs + [v])
  {
    assert (entries + [entry])[..|entries|] == entries;
  }

  lemma GroupRequestsSnoc(specs: seq<VdiSpec>, v: VdiSpec)
    ensures Group(Requests(specs + [v])) == Add(Group(Requests(specs)), TotalsKey(v), v.sizeMiB * MiB)
  {
    assert Requests(specs + [v])[..|specs|] == Requests(specs);
  }

  /** An entry that parses adds its bytes to the totals of the entries before it. */
  lemma TotalsOfStep(entries: seq<string>, entry: string, totals: Totals, v: VdiSpec)
    requires TotalsOf(entries) == Ok(totals) && ParseEntry(entry) == Ok(v)
    ensures TotalsOf(entries + [entry]) == Ok(Add(totals, TotalsKey(v), v.sizeMiB * MiB))
  {
    ParseEntriesSnoc(entries, entry);
    GroupRequestsSnoc(ParseEntries(entries).value, v);
  }

  /** Entry `i` either spoils the whole list or adds its bytes to the totals of the entries before it. */
  lemma TotalsOfNext(entries: seq<string>, i: nat, totals: Totals)
    requires i < |entries| && TotalsOf(entries[..i]) == Ok(totals)
    ensures ParseEntry(entries[i]).Err? ==> TotalsOf(entries) == Err(InvalidVdiSize)
    ensures ParseEntry(entries[i]).Ok? ==>
              var v := ParseEntry(entries[i]).value;
              TotalsOf(entries[..i + 1]) == Ok(Add(totals, TotalsKey(v), v.sizeMiB * MiB))
  {
    if ParseEntry(entries[i]).Err? {
      TotalsOfErr(entries, i);
    } else {
      TotalsOfStep(entries[..i], entries[i], totals, ParseEntry(entries[i]).value);
      assert entries[..i + 1] == entries[..i] + [entries[i]];
    }
  }

  /** The loop of `check_free_disk_space_extra_vdis` that parses each entry and fills `total_sr_bsize`. */
  method TotalExtraVdiSizes(option: string) returns (r: Result<Totals, Error>)
    ensures r == ExtraVdiTotals(option)
  {
    r := TotalEntries(Entries(option));
  }

  method TotalEntries(vdis: seq<string>) returns (r: Result<Totals, Error>)
    ensures r == TotalsOf(vdis)
  {
    var totalSrBsize: Totals := [];
    var i := 0;
    while i < |vdis|
      invariant 0 <= i <= |vdis|
      invariant TotalsOf(vdis[..i]) == Ok(totalSrBsize)
    {
      var vdi := vdis[i];
      var parsed := ParseEntry(vdi);
      TotalsOfNext(vdis, i, totalSrBsize);
      if parsed.Err? {
        return Err(InvalidVdiSize);
      }
      var bsize := parsed.value.sizeMiB * 1024 * 1024;
      var key := if parsed.value.sr.None? then "default" else parsed.value.sr.value;
      totalSrBsize := Add(totalSrBsize, key, bsize);
      i := i + 1;
    }
    assert vdis[..i] == vdis;
    return Ok(totalSrBsize);
  }

  /** The outcome of `check_free_disk_space_extra_vdis`: passes when the option is unset. */
  function ExtraVdiVerdict(option: Option<string>, storage: Storage, allocationPct: real, limitPct: real): (r: Result<bool, Error>)
    ensures option.None? ==> r == Ok(true)
    ensures r.Err? ==> r.error == InvalidVdiSize || r.error.StorageRepositoryNotAvailable?
  {
    match option
    case None => Ok(true)
    case Some(s) =>
      match ExtraVdiTotals(s)
      case Err(e) => Err(e)
      case Ok(totals) => MultiVerdict(totals, storage, allocationPct, limitPct)
  }

  /** `check_free_disk_space_extra_vdis`. */
  method CheckFreeDiskSpaceExtraVdis(option: Option<string>, storage: Storage, allocationPct: real, limitPct: real)
    returns (r: Result<bool, Error>)
    ensures r == ExtraVdiVerdict(option, storage, allocationPct, limitPct)
  {
    if option.None? {
      return Ok(true);
    }
    var totals := TotalExtraVdiSizes(option.value);
    if totals.Err? {
      return Err(totals.error);
    }
    r := CheckMultiFreeDiskSpace(totals.value, storage, allocationPct, limitPct);
  }

  /** The extra-VDI check rejects when the option is malformed or names an unknown SR, and otherwise passes exactly when every SR key passes. */
  lemma ExtraVdiVerdictMeaning(option: string, storage: Storage, allocationPct: real, limitPct: real)
    ensures var r := ExtraVdiVerdict(Some(option), storage, allocationPct, limitPct);
            && (ParseEntries(Entries(option)).Err? ==> r == Err(InvalidVdiSize))
            && (ParseEntries(Entries(option)).Ok? ==>
                  var totals := ExtraVdiTotals(option).value;
                  && (r.Err? <==> exists i :: 0 <= i < |totals| && ResolveKey(storage, totals[i].0).None?)
                  && (r.Ok? ==> (r.value <==> forall i :: 0 <= i < |totals| ==>
                        CheckFreeDiskSpace(ResolveKey(storage, totals[i].0).value, totals[i].1, allocationPct, limitPct))))
  {
  }

  /** A non-empty value with no comma and no surrounding white space is a single entry. */
  lemma SingleEntry(s: string)
    requires |s| > 0 && ',' !in s
    requires !IsStripSpace(s[0]) && !IsStripSpace(s[|s| - 1])
    ensures Entries(s) == [s]
  {
    StripUnchanged(s);
    ChompUnchanged(s);
    SplitAllWithoutSeparator(s, ',');
  }

  /** A single entry amounts to one request. */
  lemma SingleEntryTotals(entry: string, v: VdiSpec)
    requires ParseEntry(entry) == Ok(v)
    ensures TotalsOf([entry]) == Ok([(TotalsKey(v), v.sizeMiB * MiB)])
  {
    var none: seq<VdiSpec> := [];
    assert [entry][..0] == [] && ParseEntries([]) == Ok(none);
    assert none + [v] == [v];
    assert ParseEntries([entry]) == Ok([v]);
    var rs := Requests([v]);
    assert rs[..0] == [];
    assert Group(rs) == Add(Group([]), TotalsKey(v), v.sizeMiB * MiB);
  }

  /** "20" asks for 20 MiB on the default SR. */
  lemma BareSizeExample()
    ensures ExtraVdiTotals("20") == Ok([("default", 20 * MiB)])
  {
    var s := "20";
    assert s[0] == '2' && s[1] == '0' && |s| == 2;
    SingleEntry(s);
    assert DigitsValue(s) == 20 by { assert s[..1] == "2"; }
    SingleEntryTotals(s, VdiSpec(None, 20));
  }

  lemma NamedEntryParse()
    ensures ParseEntry("mysr:20") == Ok(VdiSpec(Some("mysr"), 20))
  {
    var name, size := "mysr", "20";
    assert DigitsValue(size) == 20 by { assert size[..1] == "2"; }
    assert ':' !in name;
    ParseNamedEntry(name, size);
    assert name + ":" + size == "mysr:20";
  }

  lemma NamedEntrySplit()
    ensures Entries("mysr:20") == ["mysr:20"]
  {
    var s := "mysr:20";
    assert s[0] == 'm' && s[6] == '0' && ',' !in s;
    SingleEntry(s);
  }

  /** "mysr:20" asks for 20 MiB on the SR named `mysr`. */
  lemma NamedSizeExample()
    ensures ExtraVdiTotals("mysr:20") == Ok([("mysr", 20 * MiB)])
  {
    NamedEntryParse();
    NamedEntrySplit();
    SingleEntryTotals("mysr:20", VdiSpec(Some("mysr"), 20));
  }

  lemma NonNumericEntry()
    ensures Entries("abc") == ["abc"] && ParseEntry("abc").Err?
  {
    NonNumericSplit();
    NonNumericParse();
  }

  lemma NonNumericSplit()
    ensures Entries("abc") == ["abc"]
  {
    var s := "abc";
    assert s[0] == 'a' && s[2] == 'c';
    SingleEntry(s);
  }

  lemma NonNumericParse()
    ensures ParseEntry("abc").Err?
  {
    var s := "abc";
    assert s[0] == 'a' && s[1] == 'b' && s[2] == 'c';
    assert ':' !in s;
    assert !IsDigit(s[0]);
  }

  /** "abc" is not a size. */
  lemma NonNumericExample()
    ensures ExtraVdiTotals("abc") == Err(InvalidVdiSize)
  {
    NonNumericEntry();
    TotalsOfErr(["abc"], 0);
  }

  // ---------------------------------------------------------------------
  // The size test as written in the source
  // ---------------------------------------------------------------------

  /**
   * Ruby's `size =~ /^\d+$/`: `^` and `$` match at every line boundary,
   * so the test passes when any line of `size` is a string of digits.
   */
  predicate MatchesDigitLine(size: string) {
    exists i :: 0 <= i < |SplitAll(size, '\n')| && IsDigits(SplitAll(size, '\n')[i])
  }

  /** An entry as the source reads it: the line-anchored size test, then `size.to_i`. */
  function ParseEntryAsWritten(entry: string): (r: Result<(Option<string>, int), Error>)
    ensures r.Err? ==> r.error == InvalidVdiSize
  {
    if ':' in entry then
      var parts := Split(entry, ':');
      if |parts| < 2 || !MatchesDigitLine(parts[1]) then Err(InvalidVdiSize)
      else Ok((Some(parts[0]), ToI(parts[1])))
    else if !MatchesDigitLine(entry) then Err(InvalidVdiSize)
    else Ok((None, ToI(entry)))
  }

  /**
   * An entry with an embedded line break passes the source's test although
   * it is not numeric, and `to_i` then reads a size that is not the digits
   * that passed: 0 for "x\n20", -3 for "-3\n5". The digits-only test
   * refuses both.
   */
  lemma LineAnchoredSizeTest()
    ensures ParseEntryAsWritten("x\n20") == Ok((None, 0))
    ensures ParseEntryAsWritten("-3\n5") == Ok((None, -3))
    ensures ParseEntry("x\n20") == Err(InvalidVdiSize)
    ensures ParseEntry("-3\n5") == Err(InvalidVdiSize)
  {
    LetterLineSize();
    NegativeLineSize();
  }

  lemma LetterLineSize()
    ensures ParseEntryAsWritten("x\n20") == Ok((None, 0))
    ensures ParseEntry("x\n20") == Err(InvalidVdiSize)
  {
    assert SplitAll("x\n20", '\n')[1] == "20";
  }

  lemma NegativeLineSize()
    ensures ParseEntryAsWritten("-3\n5") == Ok((None, -3))
    ensures ParseEntry("-3\n5") == Err(InvalidVdiSize)
  {
    assert SplitAll("-3\n5", '\n')[1] == "5";
  }
}
