/**
 * Discovery of DIGIT tactile sensors by scanning the device directory:
 * per-device attribute resolution, record construction, listing and lookup
 * by serial number.
 */
module DigitHandler {
  import opened Wrappers
  import opened Text
  import opened Host
  import opened Seqs

  /** The value of a field whose attribute was not read. */
  const Unknown: string := "Unknown"
  const DevDir: string := "/dev/"
  const VideoPrefix: string := "video"
  const Marker: string := "DIGIT"

  /** The four fields the resolver fills, one per sysfs attribute file. */
  datatype Field = Serial | Manufacturer | Model | Revision {

    /** When the resolver reads this field: 0 for the first read, 3 for the last. */
    function Step(): nat
    {
      match this
      case Serial => 0
      case Manufacturer => 1
      case Model => 2
      case Revision => 3
    }

    /** The sysfs attribute file this field is read from. */
    function File(): string
    {
      match this
      case Serial => "serial"
      case Manufacturer => "manufacturer"
      case Model => "product"
      case Revision => "bcdDevice"
    }
  }

  /**
   * The dictionary the resolver returns. It always holds exactly the keys
   * `serial`, `manufacturer`, `model` and `revision`, so it is a record here.
   */
  datatype SysfsInfo = SysfsInfo(serial: string, manufacturer: string, model: string, revision: string) {

    /** `info[key] = value`. */
    function With(f: Field, value: string): SysfsInfo
    {
      match f
      case Serial => this.(serial := value)
      case Manufacturer => this.(manufacturer := value)
      case Model => this.(model := value)
      case Revision => this.(revision := value)
    }

    /** `info[key]`. */
    function Get(f: Field): string
    {
      match f
      case Serial => serial
      case Manufacturer => manufacturer
      case Model => model
      case Revision => revision
    }
  }

  /** One discovered device, as `_parse` builds it. */
  datatype DigitRecord = DigitRecord(
    devName: string, manufacturer: string, model: string, revision: string, serial: string)

  // ---------------------------------------------------------------------------
  // Attribute resolution
  // ---------------------------------------------------------------------------

  /** Step `k` of the resolver runs to its end: nothing raised at it or before it. */
  predicate Completes(sys: DeviceSysfs, k: nat)
  {
    sys.failAt.None? || k < sys.failAt.value
  }

  /**
   * Reference definition of one field, taken on its own: the stripped contents
   * of its attribute file when that file exists and the reads got that far,
   * otherwise `Unknown`. Either way the value has no surrounding whitespace.
   */
  function AttributeValue(sys: DeviceSysfs, f: Field): (v: string)
    ensures TrimmedOf(v, Whitespace)
  {
    if Completes(sys, f.Step()) && f.File() in sys.files then Strip(sys.files[f.File()]) else Unknown
  }

  /** What the resolver returns: every field resolved on its own. */
  function ExpectedInfo(sys: DeviceSysfs): SysfsInfo
  {
    SysfsInfo(AttributeValue(sys, Serial), AttributeValue(sys, Manufacturer),
              AttributeValue(sys, Model), AttributeValue(sys, Revision))
  }

  /**
   * `_get_device_info_from_sysfs`: starts every field at `Unknown`, then reads
   * the four attribute files in turn, overwriting a field only when its file
   * exists. An error stops the remaining reads; it is caught, and whatever has
   * been filled in so far is returned.
   */
  method ResolveSysfsInfo(host: Host, name: string) returns (info: SysfsInfo)
    ensures info == ExpectedInfo(SysfsOf(host, name))
  {
    var sys := SysfsOf(host, name);
    info := SysfsInfo(Unknown, Unknown, Unknown, Unknown);
    // Before step k, `info` holds what an error at step k leaves behind.
    assert info == ExpectedInfo(sys.(failAt := Some(0)));

    if sys.failAt == Some(0) { assert sys.(failAt := Some(0)) == sys; return; }
    info := ReadAttribute(sys, Serial, info);
    if sys.failAt == Some(1) { assert sys.(failAt := Some(1)) == sys; return; }
    info := ReadAttribute(sys, Manufacturer, info);
    if sys.failAt == Some(2) { assert sys.(failAt := Some(2)) == sys; return; }
    info := ReadAttribute(sys, Model, info);
    if sys.failAt == Some(3) { assert sys.(failAt := Some(3)) == sys; return; }
    info := ReadAttribute(sys, Revision, info);
    NoErrorAfterLastStep(sys);
  }

  /** When no step raised, stopping after the last step is the same as no error. */
  lemma NoErrorAfterLastStep(sys: DeviceSysfs)
    requires Completes(sys, 3)
    ensures ExpectedInfo(sys.(failAt := Some(4))) == ExpectedInfo(sys)
  {
  }

  /**
   * One block of the resolver: when the attribute file of `f` exists, its
   * stripped contents replace the field; the other fields are left alone.
   * Reached only when no earlier step raised.
   */
  method ReadAttribute(sys: DeviceSysfs, f: Field, info: SysfsInfo) returns (next: SysfsInfo)
    requires sys.failAt != Some(f.Step())
    requires info == ExpectedInfo(sys.(failAt := Some(f.Step())))
    ensures next == ExpectedInfo(sys.(failAt := Some(f.Step() + 1)))
  {
    next := info;
    if f.File() in sys.files {
      next := info.With(f, Strip(sys.files[f.File()]));
    }
  }

  /**
   * An error at step `j` keeps the fields read before it exactly as an
   * error-free resolution has them and leaves every later field `Unknown`.
   */
  lemma ErrorKeepsEarlierFields(sys: DeviceSysfs, j: nat)
    requires sys.failAt == Some(j)
    ensures forall f: Field ::
      ExpectedInfo(sys).Get(f) == (if f.Step() < j then ExpectedInfo(sys.(failAt := None)).Get(f) else Unknown)
  {
  }

  // ---------------------------------------------------------------------------
  // Record construction
  // ---------------------------------------------------------------------------

  /** The record `_parse` assembles from a device name and the resolver's result. */
  function BuildRecord(name: string, info: SysfsInfo): DigitRecord
  {
    DigitRecord(DevDir + name, info.manufacturer, info.model, info.revision, info.serial)
  }

  /** The record the handler builds for device node `name` on `host`. */
  function RecordOf(host: Host, name: string): DigitRecord
  {
    BuildRecord(name, ExpectedInfo(SysfsOf(host, name)))
  }

  /** `_parse`: resolve the node's attributes, then build its record. */
  method ParseDevice(host: Host, name: string) returns (rec: DigitRecord)
    ensures rec == RecordOf(host, name)
    ensures rec.devName == "/dev/" + name
  {
    var info := ResolveSysfsInfo(host, name);
    rec := BuildRecord(name, info);
  }

  /**
   * Field by field, a record holds its attribute file's stripped contents, or
   * `Unknown` when the file is absent or an error came first: `serial` from
   * `serial`, `manufacturer` from `manufacturer`, `model` from `product`,
   * `revision` from `bcdDevice`.
   */
  lemma RecordFields(host: Host, name: string)
    ensures var sys, r := SysfsOf(host, name), RecordOf(host, name);
      && r.devName == "/dev/" + name
      && r.serial == (if Completes(sys, 0) && "serial" in sys.files
                      then Strip(sys.files["serial"]) else "Unknown")
      && r.manufacturer == (if Completes(sys, 1) && "manufacturer" in sys.files
                            then Strip(sys.files["manufacturer"]) else "Unknown")
      && r.model == (if Completes(sys, 2) && "product" in sys.files
                     then Strip(sys.files["product"]) else "Unknown")
      && r.revision == (if Completes(sys, 3) && "bcdDevice" in sys.files
                        then Strip(sys.files["bcdDevice"]) else "Unknown")
  {
  }

  /** No field of a record carries surrounding whitespace. */
  lemma RecordFieldsTrimmed(host: Host, name: string)
    ensures var r := RecordOf(host, name);
      && TrimmedOf(r.serial, Whitespace) && TrimmedOf(r.manufacturer, Whitespace)
      && TrimmedOf(r.model, Whitespace) && TrimmedOf(r.revision, Whitespace)
  {
    var sys := SysfsOf(host, name);
    assert RecordOf(host, name).serial == AttributeValue(sys, Serial);
    assert RecordOf(host, name).manufacturer == AttributeValue(sys, Manufacturer);
    assert RecordOf(host, name).model == AttributeValue(sys, Model);
    assert RecordOf(host, name).revision == AttributeValue(sys, Revision);
  }

  // ---------------------------------------------------------------------------
  // Discovery
  // ---------------------------------------------------------------------------

  /** Device node `name` is listed: its name starts with `video` and its model contains `DIGIT`. */
  predicate Kept(host: Host, name: string)
  {
    StartsWith(name, VideoPrefix) && Contains(RecordOf(host, name).model, Marker)
  }

  /** `Kept` and `RecordOf` for one host, as functions of the entry name. */
  function KeepOn(host: Host): string -> bool
  {
    name => Kept(host, name)
  }

  function RecordOn(host: Host): string -> DigitRecord
  {
    name => RecordOf(host, name)
  }

  /** What `list_digits` returns on `host`: the records of the kept entries, in listing order. */
  function Digits(host: Host): seq<DigitRecord>
  {
    match host.listing
    case None => []
    case Some(names) => FilterMap(names, KeepOn(host), RecordOn(host))
  }

  /**
   * `list_digits`: walks the directory listing in order, resolves each entry
   * whose name starts with `video`, and appends its record when the model
   * contains `DIGIT`. A listing that fails yields no devices.
   */
  method ListDigits(host: Host) returns (devices: seq<DigitRecord>)
    ensures devices == Digits(host)
    ensures host.listing.None? ==> devices == []
  {
    if host.listing.None? {
      return [];
    }
    var names := host.listing.value;
    devices := [];
    for i := 0 to |names|
      invariant devices == FilterMap(names[..i], KeepOn(host), RecordOn(host))
    {
      assert names[..i + 1][..i] == names[..i];
      var name := names[i];
      if StartsWith(name, VideoPrefix) {
        var info := ParseDevice(host, name);
        if Contains(info.model, Marker) {
          devices := devices + [info];
        }
      }
    }
    assert names[..|names|] == names;
  }

  /**
   * The marker test is case-sensitive: a model that spells the marker in
   * other letter cases does not pass it.
   */
  lemma MarkerIsCaseSensitive()
    ensures Contains("DIGIT", Marker)
    ensures !Contains("Digit", Marker) && !Contains("digit", Marker)
  {
    assert "DIGIT"[..5] == Marker;
    assert "Digit"[1] != Marker[1] && "digit"[0] != Marker[0];
    ContainsIff("igit", Marker);
  }

  /**
   * Every listed record comes from a directory entry whose name starts with
   * `video`, has a model containing `DIGIT`, and is named `/dev/` + that entry.
   */
  lemma ListedAreMarkedVideoNodes(host: Host)
    requires host.listing.Some?
    ensures forall j :: 0 <= j < |Digits(host)| ==>
      && Contains(Digits(host)[j].model, "DIGIT")
      && exists i :: 0 <= i < |host.listing.value|
           && StartsWith(host.listing.value[i], "video")
           && Digits(host)[j] == RecordOf(host, host.listing.value[i])
           && Digits(host)[j].devName == "/dev/" + host.listing.value[i]
  {
    var names := host.listing.value;
    PositionsSound(names, KeepOn(host), RecordOn(host));
    var p := Positions(names, KeepOn(host));
    forall j | 0 <= j < |Digits(host)|
      ensures Contains(Digits(host)[j].model, "DIGIT")
      ensures exists i :: 0 <= i < |names| && StartsWith(names[i], "video")
                && Digits(host)[j] == RecordOf(host, names[i])
                && Digits(host)[j].devName == "/dev/" + names[i]
    {
      var i := p[j];
      assert KeepOn(host)(names[i]);
    }
  }

  /**
   * The listing is a subsequence of the directory: `Positions` gives, for each
   * record, the entry it came from; these positions strictly increase, so the
   * directory order is kept and no entry is taken twice; every entry the
   * filter keeps is among them, so each kept entry appears exactly once.
   */
  lemma ListingFollowsDirectory(host: Host)
    requires host.listing.Some?
    ensures var names, p := host.listing.value, Positions(host.listing.value, KeepOn(host));
      && |p| == |Digits(host)|
      && (forall j :: 0 <= j < |p| ==> p[j] < |names| && Digits(host)[j] == RecordOf(host, names[p[j]]))
      && (forall j, k :: 0 <= j < k < |p| ==> p[j] < p[k])
      && (forall i :: 0 <= i < |names| && Kept(host, names[i]) ==> i in p)
  {
    var names := host.listing.value;
    PositionsSound(names, KeepOn(host), RecordOn(host));
    PositionsIncrease(names, KeepOn(host));
    PositionsComplete(names, KeepOn(host));
    forall i | 0 <= i < |names| && Kept(host, names[i])
      ensures i in Positions(names, KeepOn(host))
    {
      assert KeepOn(host)(names[i]);
    }
  }

  /** Every `video` entry whose model contains `DIGIT` is in the listing. */
  lemma KeptEntriesListed(host: Host)
    requires host.listing.Some?
    ensures forall i :: 0 <= i < |host.listing.value| && Kept(host, host.listing.value[i]) ==>
      RecordOf(host, host.listing.value[i]) in Digits(host)
  {
    var names := host.listing.value;
    FilterMapComplete(names, KeepOn(host), RecordOn(host));
    forall i | 0 <= i < |names| && Kept(host, names[i])
      ensures RecordOf(host, names[i]) in Digits(host)
    {
      assert KeepOn(host)(names[i]);
    }
  }

  /** When the directory names no entry twice, no device path is listed twice. */
  lemma DistinctEntriesDistinctDevices(host: Host)
    requires host.listing.Some?
    requires forall a, b :: 0 <= a < b < |host.listing.value| ==> host.listing.value[a] != host.listing.value[b]
    ensures forall j, k :: 0 <= j < k < |Digits(host)| ==> Digits(host)[j].devName != Digits(host)[k].devName
  {
    var names := host.listing.value;
    PositionsSound(names, KeepOn(host), RecordOn(host));
    PositionsIncrease(names, KeepOn(host));
    var p := Positions(names, KeepOn(host));
    forall j, k | 0 <= j < k < |Digits(host)|
      ensures Digits(host)[j].devName != Digits(host)[k].devName
    {
      var a, b := names[p[j]], names[p[k]];
      assert Digits(host)[j].devName == DevDir + a;
      assert Digits(host)[k].devName == DevDir + b;
      assert a != b;
      assert (DevDir + a)[|DevDir|..] == a;
      assert (DevDir + b)[|DevDir|..] == b;
    }
  }

  /**
   * Entries whose name does not start with `video` are never resolved: two
   * hosts with the same listing whose sysfs agrees on every listed `video`
   * entry give the same listing, whatever the other entries' attributes.
   */
  lemma NonVideoEntriesIgnored(host1: Host, host2: Host)
    requires host1.listing == host2.listing
    requires host1.listing.Some? ==>
      forall i :: 0 <= i < |host1.listing.value| && StartsWith(host1.listing.value[i], VideoPrefix) ==>
        SysfsOf(host1, host1.listing.value[i]) == SysfsOf(host2, host1.listing.value[i])
    ensures Digits(host1) == Digits(host2)
  {
    if host1.listing.Some? {
      var names := host1.listing.value;
      forall i | 0 <= i < |names|
        ensures KeepOn(host1)(names[i]) == KeepOn(host2)(names[i])
        ensures KeepOn(host1)(names[i]) ==> RecordOn(host1)(names[i]) == RecordOn(host2)(names[i])
      {
        if StartsWith(names[i], VideoPrefix) {
          assert RecordOf(host1, names[i]) == RecordOf(host2, names[i]);
        }
      }
      FilterMapCongruent(names, KeepOn(host1), RecordOn(host1), KeepOn(host2), RecordOn(host2));
    }
  }

  // ---------------------------------------------------------------------------
  // Lookup
  // ---------------------------------------------------------------------------

  /**
   * `find_digit`: lists the devices afresh and returns the first one, in
   * listing order, whose serial equals `serial` exactly; `None` when no
   * listed device has that serial.
   */
  method FindDigit(host: Host, serial: string) returns (found: Option<DigitRecord>)
    ensures found.None? <==> forall j :: 0 <= j < |Digits(host)| ==> Digits(host)[j].serial != serial
    ensures found.Some? ==>
      exists k :: && 0 <= k < |Digits(host)| && Digits(host)[k] == found.value
                  && found.value.serial == serial
                  && (forall j :: 0 <= j < k ==> Digits(host)[j].serial != serial)
  {
    var digits := ListDigits(host);
    for i := 0 to |digits|
      invariant forall j :: 0 <= j < i ==> digits[j].serial != serial
    {
      if digits[i].serial == serial {
        return Some(digits[i]);
      }
    }
    return None;
  }
}
