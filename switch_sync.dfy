/**
 * Topology sync: after (re)connecting, the proxy asks the firmware for its
 * configuration and rebuilds the two switch tables (id -> internal name and
 * id -> short wire key) so that disabled dew heaters disappear and the ids
 * stay dense from 0.
 */
module SwitchSync {
  import opened Decimal

  /** Firmware heater mode meaning "disabled". */
  const DisabledMode: int := 5

  const StandardSwitches: seq<string> := ["dc1", "dc2", "dc3", "dc4", "dc5", "usbc12", "usb345", "adj_conv"]
  const StandardShortKeys: seq<string> := ["d1", "d2", "d3", "d4", "d5", "u12", "u34", "adj"]
  const MasterPowerName: string := "master_power"
  const MasterPowerShortKey: string := "all"

  /** Outcome of the `{"get":"config"}` query: the command failed, its reply
      did not decode, or it decoded to the list of dew-heater modes. */
  datatype FirmwareConfig = SendFailed | ParseFailed | Parsed(heaterModes: seq<int>)

  /** One exposed switch: internal name and short wire key. */
  datatype SwitchEntry = SwitchEntry(name: string, shortKey: string)

  /** Name (and short key) of the heater at firmware position i: "pwm{i+1}". */
  function HeaterName(i: nat): string
  {
    "pwm" + NatToString(i + 1)
  }

  function StandardEntries(): (es: seq<SwitchEntry>)
    ensures |es| == 8
    ensures forall k :: 0 <= k < 8 ==> es[k] == SwitchEntry(StandardSwitches[k], StandardShortKeys[k])
  {
    seq(8, k requires 0 <= k < 8 => SwitchEntry(StandardSwitches[k], StandardShortKeys[k]))
  }

  /** The enabled heaters among `modes`, in firmware order, each named after
      its firmware position. */
  function HeaterEntries(modes: seq<int>): (es: seq<SwitchEntry>)
    ensures |es| <= |modes|
  {
    if modes == [] then []
    else
      var i := |modes| - 1;
      HeaterEntries(modes[..i]) + (if modes[i] != DisabledMode then [SwitchEntry(HeaterName(i), HeaterName(i))] else [])
  }

  /** Number of heaters whose mode is not the disabled sentinel. */
  function CountEnabled(modes: seq<int>): nat
  {
    if modes == [] then 0
    else CountEnabled(modes[..|modes| - 1]) + (if modes[|modes| - 1] != DisabledMode then 1 else 0)
  }

  /** The switches in id order: standard channels, enabled heaters, master power. */
  function SwitchOrder(modes: seq<int>): seq<SwitchEntry>
  {
    StandardEntries() + HeaterEntries(modes) + [SwitchEntry(MasterPowerName, MasterPowerShortKey)]
  }

  /** The id -> internal name table of an ordered list of switches. */
  function NameTable(es: seq<SwitchEntry>): map<int, string>
  {
    map k | 0 <= k < |es| :: es[k].name
  }

  /** The id -> short key table of an ordered list of switches. */
  function ShortKeyTable(es: seq<SwitchEntry>): map<int, string>
  {
    map k | 0 <= k < |es| :: es[k].shortKey
  }

  /** Appending a switch adds exactly its id to both tables. */
  lemma TablesSnoc(es: seq<SwitchEntry>, e: SwitchEntry)
    ensures NameTable(es + [e]) == NameTable(es)[|es| := e.name]
    ensures ShortKeyTable(es + [e]) == ShortKeyTable(es)[|es| := e.shortKey]
  {
    var es' := es + [e];
    assert NameTable(es').Keys == NameTable(es)[|es| := e.name].Keys;
    assert ShortKeyTable(es').Keys == ShortKeyTable(es)[|es| := e.shortKey].Keys;
  }

  /** Builds both tables from scratch, in the three passes of the firmware
      sync: standard switches, enabled heaters, master power last. */
  method BuildSwitchMaps(modes: seq<int>) returns (idMap: map<int, string>, shortKeyById: map<int, string>)
    ensures idMap == NameTable(SwitchOrder(modes))
    ensures shortKeyById == ShortKeyTable(SwitchOrder(modes))
  {
    idMap := map[];
    shortKeyById := map[];
    var currentID := 0;
    ghost var built: seq<SwitchEntry> := [];

    for i := 0 to |StandardSwitches|
      invariant built == StandardEntries()[..i]
      invariant currentID == |built|
      invariant idMap == NameTable(built) && shortKeyById == ShortKeyTable(built)
    {
      idMap := idMap[currentID := StandardSwitches[i]];
      shortKeyById := shortKeyById[currentID := StandardShortKeys[i]];
      TablesSnoc(built, SwitchEntry(StandardSwitches[i], StandardShortKeys[i]));
      built := built + [SwitchEntry(StandardSwitches[i], StandardShortKeys[i])];
      assert built == StandardEntries()[..i + 1];
      currentID := currentID + 1;
    }

    for i := 0 to |modes|
      invariant built == StandardEntries() + HeaterEntries(modes[..i])
      invariant currentID == |built|
      invariant idMap == NameTable(built) && shortKeyById == ShortKeyTable(built)
    {
      assert modes[..i + 1][..i] == modes[..i];
      if modes[i] != DisabledMode {
        var internalName := HeaterName(i);
        var shortKey := HeaterName(i);
        idMap := idMap[currentID := internalName];
        shortKeyById := shortKeyById[currentID := shortKey];
        TablesSnoc(built, SwitchEntry(internalName, shortKey));
        built := built + [SwitchEntry(internalName, shortKey)];
        currentID := currentID + 1;
      }
    }

    assert modes[..|modes|] == modes;
    idMap := idMap[currentID := MasterPowerName];
    shortKeyById := shortKeyById[currentID := MasterPowerShortKey];
    TablesSnoc(built, SwitchEntry(MasterPowerName, MasterPowerShortKey));
    built := built + [SwitchEntry(MasterPowerName, MasterPowerShortKey)];
  }

  /** Different firmware positions give different heater names. */
  lemma HeaterNameInjective(i: nat, j: nat)
    ensures HeaterName(i) == HeaterName(j) ==> i == j
  {
    if HeaterName(i) == HeaterName(j) {
      assert HeaterName(i)[3..] == NatToString(i + 1);
      assert HeaterName(j)[3..] == NatToString(j + 1);
      NatToStringInjective(i + 1, j + 1);
    }
  }

  /** One list entry per enabled heater. */
  lemma {:induction false} HeaterEntriesCount(modes: seq<int>)
    ensures |HeaterEntries(modes)| == CountEnabled(modes)
  {
    if modes != [] {
      HeaterEntriesCount(modes[..|modes| - 1]);
    }
  }

  /** The heater list of a prefix of the modes is a prefix of the heater list. */
  lemma {:induction false} HeaterEntriesPrefix(modes: seq<int>, n: nat)
    requires n <= |modes|
    ensures HeaterEntries(modes[..n]) <= HeaterEntries(modes)
    decreases |modes|
  {
    assert modes[..|modes|] == modes;
    if n < |modes| {
      var m := |modes| - 1;
      assert modes[..m][..n] == modes[..n];
      HeaterEntriesPrefix(modes[..m], n);
    }
  }

  /** Every heater list entry is an enabled heater, named after its position. */
  lemma {:induction false} HeaterEntriesFrom(modes: seq<int>)
    ensures forall k :: 0 <= k < |HeaterEntries(modes)| ==>
              exists j :: 0 <= j < |modes| && modes[j] != DisabledMode
                && HeaterEntries(modes)[k] == SwitchEntry(HeaterName(j), HeaterName(j))
  {
    if modes != [] {
      var m := |modes| - 1;
      HeaterEntriesFrom(modes[..m]);
      var es := HeaterEntries(modes);
      forall k | 0 <= k < |es|
        ensures exists j :: 0 <= j < |modes| && modes[j] != DisabledMode
                  && HeaterEntries(modes)[k] == SwitchEntry(HeaterName(j), HeaterName(j))
      {
        assert es == HeaterEntries(modes[..m]) + (if modes[m] != DisabledMode then [SwitchEntry(HeaterName(m), HeaterName(m))] else []);
        if k < |HeaterEntries(modes[..m])| {
          var j :| 0 <= j < m && modes[..m][j] != DisabledMode
                   && HeaterEntries(modes[..m])[k] == SwitchEntry(HeaterName(j), HeaterName(j));
          assert modes[j] != DisabledMode && es[k] == SwitchEntry(HeaterName(j), HeaterName(j));
        } else {
          assert modes[m] != DisabledMode && es[k] == SwitchEntry(HeaterName(m), HeaterName(m));
        }
      }
    } else {
      assert HeaterEntries(modes) == [];
    }
  }

  /** No heater name is listed twice. */
  lemma {:induction false} HeaterEntriesDistinct(modes: seq<int>)
    ensures forall a, b :: 0 <= a < b < |HeaterEntries(modes)| ==>
              HeaterEntries(modes)[a].name != HeaterEntries(modes)[b].name
  {
    if modes != [] {
      var m := |modes| - 1;
      HeaterEntriesDistinct(modes[..m]);
      HeaterEntriesFrom(modes[..m]);
      var prev := HeaterEntries(modes[..m]);
      if modes[m] != DisabledMode {
        forall a | 0 <= a < |prev| ensures prev[a].name != HeaterName(m)
        {
          var j :| 0 <= j < m && modes[..m][j] != DisabledMode
                   && prev[a] == SwitchEntry(HeaterName(j), HeaterName(j));
          HeaterNameInjective(j, m);
        }
      }
    }
  }

  /** The heater at position i, if enabled, is entry number CountEnabled(modes[..i]). */
  lemma HeaterEntryAt(modes: seq<int>, i: nat)
    requires i < |modes| && modes[i] != DisabledMode
    ensures CountEnabled(modes[..i]) < |HeaterEntries(modes)|
    ensures HeaterEntries(modes)[CountEnabled(modes[..i])] == SwitchEntry(HeaterName(i), HeaterName(i))
  {
    assert modes[..i + 1][..i] == modes[..i];
    HeaterEntriesCount(modes[..i]);
    HeaterEntriesPrefix(modes, i + 1);
  }

  /** Heater names start with "pwm"; no standard name, standard key, nor the
      master channel's name or key does. */
  lemma HeaterNamesApart(i: nat)
    ensures HeaterName(i) !in StandardSwitches && HeaterName(i) !in StandardShortKeys
    ensures HeaterName(i) != MasterPowerName && HeaterName(i) != MasterPowerShortKey
  {
    assert HeaterName(i)[0] == 'p';
  }

  /** Ids 0..7 are always the standard channels, in their fixed order. */
  lemma StandardIdsFixed(modes: seq<int>)
    ensures forall k :: 0 <= k < 8 ==>
              k in NameTable(SwitchOrder(modes)) && NameTable(SwitchOrder(modes))[k] == StandardSwitches[k]
              && k in ShortKeyTable(SwitchOrder(modes)) && ShortKeyTable(SwitchOrder(modes))[k] == StandardShortKeys[k]
  {
  }

  /** Both tables have exactly the ids 0 .. N-1 with N = 9 + enabled heaters,
      and master power holds the last id. */
  lemma TablesDense(modes: seq<int>)
    ensures NameTable(SwitchOrder(modes)).Keys == ShortKeyTable(SwitchOrder(modes)).Keys
    ensures forall k :: k in NameTable(SwitchOrder(modes)) <==> 0 <= k < 9 + CountEnabled(modes)
    ensures NameTable(SwitchOrder(modes))[8 + CountEnabled(modes)] == MasterPowerName
    ensures ShortKeyTable(SwitchOrder(modes))[8 + CountEnabled(modes)] == MasterPowerShortKey
  {
    HeaterEntriesCount(modes);
  }

  /** An enabled heater at firmware position i gets id 8 + (enabled heaters
      before it), with name and short key both "pwm{i+1}". */
  lemma EnabledHeaterId(modes: seq<int>, i: nat)
    requires i < |modes| && modes[i] != DisabledMode
    ensures 8 + CountEnabled(modes[..i]) in NameTable(SwitchOrder(modes))
    ensures NameTable(SwitchOrder(modes))[8 + CountEnabled(modes[..i])] == HeaterName(i)
    ensures ShortKeyTable(SwitchOrder(modes))[8 + CountEnabled(modes[..i])] == HeaterName(i)
  {
    HeaterEntryAt(modes, i);
    var order := SwitchOrder(modes);
    assert order[8 + CountEnabled(modes[..i])] == HeaterEntries(modes)[CountEnabled(modes[..i])];
  }

  /** A disabled heater never receives an id: its name is in neither table. */
  lemma DisabledHeaterAbsent(modes: seq<int>, i: nat)
    requires i < |modes| && modes[i] == DisabledMode
    ensures HeaterName(i) !in NameTable(SwitchOrder(modes)).Values
    ensures HeaterName(i) !in ShortKeyTable(SwitchOrder(modes)).Values
  {
    var order := SwitchOrder(modes);
    var hs := HeaterEntries(modes);
    HeaterEntriesFrom(modes);
    HeaterNamesApart(i);
    forall k | 0 <= k < |order|
      ensures order[k].name != HeaterName(i) && order[k].shortKey != HeaterName(i)
    {
      if 8 <= k < 8 + |hs| {
        var j :| 0 <= j < |modes| && modes[j] != DisabledMode
                 && hs[k - 8] == SwitchEntry(HeaterName(j), HeaterName(j));
        HeaterNameInjective(i, j);
      }
    }
  }

  /** No internal name appears under two ids. */
  lemma NamesUnique(modes: seq<int>)
    ensures forall a, b :: a in NameTable(SwitchOrder(modes)) && b in NameTable(SwitchOrder(modes)) && a != b ==>
              NameTable(SwitchOrder(modes))[a] != NameTable(SwitchOrder(modes))[b]
  {
    var order := SwitchOrder(modes);
    var hs := HeaterEntries(modes);
    HeaterEntriesDistinct(modes);
    HeaterEntriesFrom(modes);
    forall a, b | 0 <= a < b < |order| ensures order[a].name != order[b].name
    {
      if 8 <= a < 8 + |hs| {
        var j :| 0 <= j < |modes| && modes[j] != DisabledMode
                 && hs[a - 8] == SwitchEntry(HeaterName(j), HeaterName(j));
        HeaterNamesApart(j);
      } else if 8 <= b < 8 + |hs| {
        var j :| 0 <= j < |modes| && modes[j] != DisabledMode
                 && hs[b - 8] == SwitchEntry(HeaterName(j), HeaterName(j));
        HeaterNamesApart(j);
      }
    }
  }

  /** Heaters [1, 5]: id 8 is "pwm1", id 9 is master power, "pwm2" is absent. */
  lemma ExampleOneDisabled()
    ensures forall k :: k in NameTable(SwitchOrder([1, 5])) <==> 0 <= k < 10
    ensures NameTable(SwitchOrder([1, 5]))[8] == "pwm1"
    ensures ShortKeyTable(SwitchOrder([1, 5]))[8] == "pwm1"
    ensures NameTable(SwitchOrder([1, 5]))[9] == "master_power"
    ensures "pwm2" !in NameTable(SwitchOrder([1, 5])).Values
  {
    var modes := [1, 5];
    assert CountEnabled(modes) == 1 by {
      assert modes[..1] == [1];
      assert [1][..0] == [];
    }
    TablesDense(modes);
    EnabledHeaterId(modes, 0);
    assert modes[..0] == [];
    assert NatToString(1) == "1" && NatToString(2) == "2";
    assert HeaterName(0) == "pwm1";
    DisabledHeaterAbsent(modes, 1);
  }

  /** What every published pair of tables satisfies: the same ids, dense
      from 0, master power under the last id, no internal name twice. */
  ghost predicate WellFormedTables(idMap: map<int, string>, shortKeyById: map<int, string>)
  {
    && idMap.Keys == shortKeyById.Keys
    && (forall k :: k in idMap <==> 0 <= k < |idMap|)
    && |idMap| >= 1
    && idMap[|idMap| - 1] == MasterPowerName && shortKeyById[|idMap| - 1] == MasterPowerShortKey
    && (forall a, b :: a in idMap && b in idMap && a != b ==> idMap[a] != idMap[b])
  }

  /** Freshly built tables are well formed. */
  lemma BuiltTablesWellFormed(modes: seq<int>)
    ensures WellFormedTables(NameTable(SwitchOrder(modes)), ShortKeyTable(SwitchOrder(modes)))
  {
    TablesDense(modes);
    NamesUnique(modes);
    HeaterEntriesCount(modes);
    assert |SwitchOrder(modes)| == 9 + CountEnabled(modes);
    TableSize(SwitchOrder(modes));
  }

  /** The name table of n switches has n entries. */
  lemma {:induction false} TableSize(es: seq<SwitchEntry>)
    ensures |NameTable(es)| == |es|
  {
    if es != [] {
      var init := es[..|es| - 1];
      TableSize(init);
      TablesSnoc(init, es[|es| - 1]);
      assert init + [es[|es| - 1]] == es;
      assert |es| - 1 !in NameTable(init);
    }
  }

  /** The two global switch tables. */
  class SwitchConfig {
    var switchIdMap: map<int, string>
    var shortSwitchKeyById: map<int, string>

    constructor (idMap: map<int, string>, shortKeyById: map<int, string>)
      ensures switchIdMap == idMap && shortSwitchKeyById == shortKeyById
    {
      switchIdMap := idMap;
      shortSwitchKeyById := shortKeyById;
    }

    /** A failed query or an undecodable reply returns early and keeps both
        tables; otherwise both are replaced by freshly built tables. */
    method SyncFirmwareConfig(response: FirmwareConfig)
      modifies this
      ensures response.Parsed? ==>
                switchIdMap == NameTable(SwitchOrder(response.heaterModes))
                && shortSwitchKeyById == ShortKeyTable(SwitchOrder(response.heaterModes))
      ensures !response.Parsed? ==>
                switchIdMap == old(switchIdMap) && shortSwitchKeyById == old(shortSwitchKeyById)
      ensures WellFormedTables(old(switchIdMap), old(shortSwitchKeyById)) ==>
                WellFormedTables(switchIdMap, shortSwitchKeyById)
    {
      if response.SendFailed? {
        return;
      }
      if response.ParseFailed? {
        return;
      }
      var newIdMap, newShortKeyById := BuildSwitchMaps(response.heaterModes);
      BuiltTablesWellFormed(response.heaterModes);
      switchIdMap := newIdMap;
      shortSwitchKeyById := newShortKeyById;
    }
  }
}
