/**
 * The AppID directory: the table of application names and ids, the reverse
 * mapping built from it, and the lookup with its "Unknown(appid=...)"
 * fallback that every entry uses for its name.
 */
module AppDirectory {
  import opened Text
  import opened Order

  // The table's rows in declaration order, in blocks of sixteen consecutive ids.

  const AppsFrom00: seq<(string, nat)> := [
    ("NONE", 0x0000),
    ("LAUNCHER", 0x0001),
    ("WATCHFACE", 0x0002),
    ("PRESSURE", 0x0003),
    ("BREATH", 0x0004),
    ("HEARTRATE", 0x0005),
    ("ACTIVITY", 0x0006),
    ("ACTIVITY_RECORD", 0x0007),
    ("ACTIVITY_RECORD_BACKUP", 0x0008),
    ("CLOCK", 0x0009),
    ("CLOCK_STOPWATCH", 0x000A),
    ("CLOCK_TIMER", 0x000B),
    ("SLEEP", 0x000C),
    ("ENERGY", 0x000D),
    ("OXYGEN", 0x000E),
    ("SPORTS", 0x000F)
  ]

  const AppsFrom10: seq<(string, nat)> := [
    ("HOME", 0x0010),
    ("SETUPWIZARD", 0x0011),
    ("EXAMPLE", 0x0012),
    ("ACTIVITIES", 0x0013),
    ("NOTIFICATIONS", 0x0014),
    ("MEDIA", 0x0015),
    ("SETTINGS", 0x0016),
    ("DEMO", 0x0017),
    ("COMPASS", 0x0018),
    ("OTA", 0x0019),
    ("FLASHLIGHT", 0x001A),
    ("CALENDAR", 0x001B),
    ("REMOTE_CAMERA", 0x001C),
    ("SPORTS_RECORD", 0x001D),
    ("ALIPAY", 0x001E),
    ("WOMENHEALTH", 0x001F)
  ]

  const AppsFrom20: seq<(string, nat)> := [
    ("CHRONOGRAPH", 0x0020),
    ("WEATHER", 0x0021),
    ("SYSTEM", 0x0022),
    ("PHONE", 0x0023),
    ("REMINDER", 0x0024),
    ("WXPAY", 0x0025),
    ("TIMER", 0x0026),
    ("FIND_PHONE", 0x0027),
    ("ALARM", 0x0028),
    ("RECORDER", 0x0029),
    ("BAROMETER", 0x002A),
    ("NFCCARD", 0x002B),
    ("DEBUG", 0x002C),
    ("VOICE_ASSISTANT", 0x002D),
    ("CONTACT", 0x002E),
    ("SPORTS_COURSE", 0x002F)
  ]

  const AppsFrom30: seq<(string, nat)> := [
    ("TEMPERATURE", 0x0030),
    ("SHARE", 0x0031),
    ("DEMONSTRATE", 0x0032),
    ("EASTER_EGG", 0x0033),
    ("BLOOD_PRESSURE", 0x0034),
    ("ECG", 0x0035),
    ("VITALITY_VALUE", 0x0036),
    ("JS", 0x0037),
    ("LUA", 0x0038),
    ("TRAINING_STATUS", 0x0039),
    ("TOMATO_TIMER", 0x003A),
    ("WORLD_CLOCK", 0x003B),
    ("TODO_LIST", 0x003C),
    ("PHONE_MUTE", 0x003D),
    ("FALL", 0x003E),
    ("MIJIA", 0x003F)
  ]

  const AppsFrom40: seq<(string, nat)> := [
    ("LPA", 0x0040),
    ("CHECK_TOOL", 0x0041),
    ("BLOOD_SUGAR", 0x0042),
    ("INTERCONNECT", 0x0043),
    ("SPORTS_TRAINING", 0x0044),
    ("PERPETUAL_CALENDAR", 0x0045),
    ("SMS", 0x0046),
    ("AMAP", 0x0047),
    ("NAVIGATION", 0x0048),
    ("SPORTS_LACTATE", 0x0049),
    ("BLOOD_PRESSURE_RESEARCH", 0x004A),
    ("AF_RESEARCH", 0x004B),
    ("SLEEP_RESEARCH", 0x004C),
    ("NS_CONTROLLER", 0x004D),
    ("WALKIE_TALKIE", 0x004E),
    ("CONTROL_CENTER", 0x004F)
  ]

  const AppsFrom50: seq<(string, nat)> := [
    ("CTA_TOOL", 0x0050),
    ("RESEARCH", 0x0051),
    ("FUSION_CENTER", 0x0052),
    ("CAR_CONTROL", 0x0053),
    ("AI_WATCHFACE", 0x0054),
    ("CHECKUP", 0x0055),
    ("HEALTH_RESEARCH", 0x0056),
    ("TODAY_HEALTH", 0x0057),
    ("WF_AUTOTEST", 0x0058),
    ("ACCESSORY_SPEAKER", 0x0059),
    ("DOORLOCK", 0x005A),
    ("FINDMY", 0x005B),
    ("OSA_SCREENING", 0x005C),
    ("CALORIE", 0x005D),
    ("UV", 0x005E),
    ("HEALTH_SUMMARY", 0x005F)
  ]

  const AppsHigh: seq<(string, nat)> := [
    ("WF_JUMP_APP", 0x00FF),
    ("OFFLOAD", 0x1000)
  ]

  /** APP_NAME_TO_ID's items, in the order of the dict literal. */
  const AppTable: seq<(string, nat)> :=
    AppsFrom00 + AppsFrom10 + AppsFrom20 + AppsFrom30 + AppsFrom40 + AppsFrom50 + AppsHigh

  /** The dict built from items in order; a later item replaces an earlier one with the same key. */
  function ToMap<K, V>(items: seq<(K, V)>): (m: map<K, V>)
    ensures forall i | 0 <= i < |items| :: items[i].0 in m
    ensures forall k | k in m :: exists i | 0 <= i < |items| :: items[i].0 == k
    decreases |items|
  {
    if items == [] then map[]
    else
      var init, last := items[..|items| - 1], items[|items| - 1];
      assert forall i | 0 <= i < |init| :: init[i] == items[i];
      ToMap(init)[last.0 := last.1]
  }

  /** The (value, key) pairs of items, as `{v: k for k, v in d.items()}` visits them. */
  function Swapped<K, V>(items: seq<(K, V)>): (r: seq<(V, K)>)
    ensures |r| == |items|
    ensures forall i | 0 <= i < |items| :: r[i] == (items[i].1, items[i].0)
  {
    seq(|items|, i requires 0 <= i < |items| => (items[i].1, items[i].0))
  }

  /** APP_NAME_TO_ID. */
  const NameToId: map<string, nat> := ToMap(AppTable)

  /** APP_ID_TO_NAME, the comprehension over APP_NAME_TO_ID's items (which are AppTable's rows, see DirectoryInverse). */
  const IdToName: map<nat, string> := ToMap(Swapped(AppTable))

  /** The name an entry gets for an id that is not in the directory. */
  function UnknownLabel(id: nat): string
  {
    "Unknown(appid=" + Decimal(id) + ")"
  }

  /** APP_ID_TO_NAME.get(app_id, f"Unknown(appid={app_id})"). */
  function AppName(id: nat): string
  {
    if id in IdToName then IdToName[id] else UnknownLabel(id)
  }

  // ---------------------------------------------------------------------
  // Facts about the table, proved block by block

  ghost predicate DistinctKeys<K, V>(items: seq<(K, V)>) {
    forall a, b | 0 <= a < b < |items| :: items[a].0 != items[b].0
  }

  ghost predicate NamesDisjoint(xs: seq<(string, nat)>, ys: seq<(string, nat)>) {
    forall a, b | 0 <= a < |xs| && 0 <= b < |ys| :: xs[a].0 != ys[b].0
  }

  /**
   * A name that differs from "Unknown" and from "MI_" within its first three
   * characters: it neither looks like the fallback label nor carries the
   * prefix the CSV export strips (see UnreservedPrefixes).
   */
  ghost predicate Unreserved(name: string) {
    |name| >= 3 ==> (name[0] != 'U' || name[1] != 'n') && (name[0] != 'M' || name[1] != 'I' || name[2] != '_')
  }

  ghost predicate UnreservedRows(items: seq<(string, nat)>) {
    forall k | 0 <= k < |items| :: Unreserved(items[k].0)
  }

  lemma UnreservedPrefixes(name: string)
    requires Unreserved(name)
    ensures !("Unknown" <= name) && !("MI_" <= name)
  {
  }

  /** Sixteen rows with the ids base, base + 1, ..., base + 15 and unreserved names. */
  ghost predicate BlockRows(block: seq<(string, nat)>, base: nat) {
    && |block| == 16
    && (forall k | 0 <= k < 16 :: block[k].1 == base + k)
    && UnreservedRows(block)
  }

  ghost predicate BlockFacts(block: seq<(string, nat)>, base: nat) {
    BlockRows(block, base) && DistinctKeys(block)
  }

  lemma From00Rows() ensures BlockRows(AppsFrom00, 0x00) {}
  lemma From10Rows() ensures BlockRows(AppsFrom10, 0x10) {}
  lemma From20Rows() ensures BlockRows(AppsFrom20, 0x20) {}
  lemma From30Rows() ensures BlockRows(AppsFrom30, 0x30) {}
  lemma From40Rows() ensures BlockRows(AppsFrom40, 0x40) {}
  lemma From50Rows() ensures BlockRows(AppsFrom50, 0x50) {}
  lemma From00Names() ensures DistinctKeys(AppsFrom00) {}
  lemma From10Names() ensures DistinctKeys(AppsFrom10) {}
  lemma From20Names() ensures DistinctKeys(AppsFrom20) {}
  lemma From30Names() ensures DistinctKeys(AppsFrom30) {}
  lemma From40Names() ensures DistinctKeys(AppsFrom40) {}
  lemma From50Names() ensures DistinctKeys(AppsFrom50) {}

  lemma From00Facts() ensures BlockFacts(AppsFrom00, 0x00) { From00Rows(); From00Names(); }
  lemma From10Facts() ensures BlockFacts(AppsFrom10, 0x10) { From10Rows(); From10Names(); }
  lemma From20Facts() ensures BlockFacts(AppsFrom20, 0x20) { From20Rows(); From20Names(); }
  lemma From30Facts() ensures BlockFacts(AppsFrom30, 0x30) { From30Rows(); From30Names(); }
  lemma From40Facts() ensures BlockFacts(AppsFrom40, 0x40) { From40Rows(); From40Names(); }
  lemma From50Facts() ensures BlockFacts(AppsFrom50, 0x50) { From50Rows(); From50Names(); }

  lemma HighFacts()
    ensures AppsHigh == [("WF_JUMP_APP", 0x00FF), ("OFFLOAD", 0x1000)]
    ensures DistinctKeys(AppsHigh) && UnreservedRows(AppsHigh)
  {
  }

  lemma Disjoint00_10() ensures NamesDisjoint(AppsFrom00, AppsFrom10) {}
  lemma Disjoint00_20() ensures NamesDisjoint(AppsFrom00, AppsFrom20) {}
  lemma Disjoint00_30() ensures NamesDisjoint(AppsFrom00, AppsFrom30) {}
  lemma Disjoint00_40() ensures NamesDisjoint(AppsFrom00, AppsFrom40) {}
  lemma Disjoint00_50() ensures NamesDisjoint(AppsFrom00, AppsFrom50) {}
  lemma Disjoint10_20() ensures NamesDisjoint(AppsFrom10, AppsFrom20) {}
  lemma Disjoint10_30() ensures NamesDisjoint(AppsFrom10, AppsFrom30) {}
  lemma Disjoint10_40() ensures NamesDisjoint(AppsFrom10, AppsFrom40) {}
  lemma Disjoint10_50() ensures NamesDisjoint(AppsFrom10, AppsFrom50) {}
  lemma Disjoint20_30() ensures NamesDisjoint(AppsFrom20, AppsFrom30) {}
  lemma Disjoint20_40() ensures NamesDisjoint(AppsFrom20, AppsFrom40) {}
  lemma Disjoint20_50() ensures NamesDisjoint(AppsFrom20, AppsFrom50) {}
  lemma Disjoint30_40() ensures NamesDisjoint(AppsFrom30, AppsFrom40) {}
  lemma Disjoint30_50() ensures NamesDisjoint(AppsFrom30, AppsFrom50) {}
  lemma Disjoint40_50() ensures NamesDisjoint(AppsFrom40, AppsFrom50) {}

  lemma DisjointHighLow()
    ensures NamesDisjoint(AppsFrom00, AppsHigh) && NamesDisjoint(AppsFrom10, AppsHigh)
    ensures NamesDisjoint(AppsFrom20, AppsHigh)
  {
  }

  lemma DisjointHighUpper()
    ensures NamesDisjoint(AppsFrom30, AppsHigh) && NamesDisjoint(AppsFrom40, AppsHigh)
    ensures NamesDisjoint(AppsFrom50, AppsHigh)
  {
  }

  lemma DistinctAppend(xs: seq<(string, nat)>, ys: seq<(string, nat)>)
    requires DistinctKeys(xs) && DistinctKeys(ys) && NamesDisjoint(xs, ys)
    ensures DistinctKeys(xs + ys)
  {
    var zs := xs + ys;
    forall a, b | 0 <= a < b < |zs| ensures zs[a].0 != zs[b].0 {
      if b < |xs| {
        assert zs[a] == xs[a] && zs[b] == xs[b];
      } else if a < |xs| {
        assert zs[a] == xs[a] && zs[b] == ys[b - |xs|];
      } else {
        assert zs[a] == ys[a - |xs|] && zs[b] == ys[b - |xs|];
      }
    }
  }

  lemma DisjointAppend(xs: seq<(string, nat)>, xs': seq<(string, nat)>, ys: seq<(string, nat)>)
    requires NamesDisjoint(xs, ys) && NamesDisjoint(xs', ys)
    ensures NamesDisjoint(xs + xs', ys)
  {
    var zs := xs + xs';
    forall a, b | 0 <= a < |zs| && 0 <= b < |ys| ensures zs[a].0 != ys[b].0 {
      if a < |xs| {
        assert zs[a] == xs[a];
      } else {
        assert zs[a] == xs'[a - |xs|];
      }
    }
  }

  /** The 98 names of the table are pairwise distinct. */
  lemma AppTableNamesDistinct()
    ensures DistinctKeys(AppTable)
  {
    From00Facts(); From10Facts(); From20Facts(); From30Facts(); From40Facts(); From50Facts(); HighFacts();
    Disjoint00_10(); Disjoint00_20(); Disjoint00_30(); Disjoint00_40(); Disjoint00_50();
    Disjoint10_20(); Disjoint10_30(); Disjoint10_40(); Disjoint10_50(); Disjoint20_30();
    Disjoint20_40(); Disjoint20_50(); Disjoint30_40(); Disjoint30_50(); Disjoint40_50();
    DisjointHighLow();
    DisjointHighUpper();
    var p1 := AppsFrom00 + AppsFrom10;
    var p2 := p1 + AppsFrom20;
    var p3 := p2 + AppsFrom30;
    var p4 := p3 + AppsFrom40;
    var p5 := p4 + AppsFrom50;
    DistinctAppend(AppsFrom00, AppsFrom10);
    DisjointAppend(AppsFrom00, AppsFrom10, AppsFrom20);
    DistinctAppend(p1, AppsFrom20);
    DisjointAppend(AppsFrom00, AppsFrom10, AppsFrom30);
    DisjointAppend(p1, AppsFrom20, AppsFrom30);
    DistinctAppend(p2, AppsFrom30);
    DisjointAppend(AppsFrom00, AppsFrom10, AppsFrom40);
    DisjointAppend(p1, AppsFrom20, AppsFrom40);
    DisjointAppend(p2, AppsFrom30, AppsFrom40);
    DistinctAppend(p3, AppsFrom40);
    DisjointAppend(AppsFrom00, AppsFrom10, AppsFrom50);
    DisjointAppend(p1, AppsFrom20, AppsFrom50);
    DisjointAppend(p2, AppsFrom30, AppsFrom50);
    DisjointAppend(p3, AppsFrom40, AppsFrom50);
    DistinctAppend(p4, AppsFrom50);
    DisjointAppend(AppsFrom00, AppsFrom10, AppsHigh);
    DisjointAppend(p1, AppsFrom20, AppsHigh);
    DisjointAppend(p2, AppsFrom30, AppsHigh);
    DisjointAppend(p3, AppsFrom40, AppsHigh);
    DisjointAppend(p4, AppsFrom50, AppsHigh);
    DistinctAppend(p5, AppsHigh);
  }

  /** Row k of the table has id k for the first 96 rows, then 0x00FF and 0x1000. */
  lemma AppTableIds()
    ensures |AppTable| == 98
    ensures forall k | 0 <= k < 0x60 :: AppTable[k].1 == k
    ensures AppTable[96].1 == 0x00FF && AppTable[97].1 == 0x1000
    ensures AppTable[96].0 == "WF_JUMP_APP" && AppTable[97].0 == "OFFLOAD"
  {
    From00Facts(); From10Facts(); From20Facts(); From30Facts(); From40Facts(); From50Facts(); HighFacts();
    forall k | 0 <= k < 0x60 ensures AppTable[k].1 == k {
      if k < 0x10 {
        assert AppTable[k] == AppsFrom00[k];
      } else if k < 0x20 {
        assert AppTable[k] == AppsFrom10[k - 0x10];
      } else if k < 0x30 {
        assert AppTable[k] == AppsFrom20[k - 0x20];
      } else if k < 0x40 {
        assert AppTable[k] == AppsFrom30[k - 0x30];
      } else if k < 0x50 {
        assert AppTable[k] == AppsFrom40[k - 0x40];
      } else {
        assert AppTable[k] == AppsFrom50[k - 0x50];
      }
    }
    assert AppTable[96] == AppsHigh[0] && AppTable[97] == AppsHigh[1];
  }

  lemma AppTableUnreserved()
    ensures UnreservedRows(AppTable)
  {
    From00Facts(); From10Facts(); From20Facts(); From30Facts(); From40Facts(); From50Facts(); HighFacts();
    forall k | 0 <= k < |AppTable| ensures Unreserved(AppTable[k].0) {
      if k < 0x10 {
        assert AppTable[k] == AppsFrom00[k];
      } else if k < 0x20 {
        assert AppTable[k] == AppsFrom10[k - 0x10];
      } else if k < 0x30 {
        assert AppTable[k] == AppsFrom20[k - 0x20];
      } else if k < 0x40 {
        assert AppTable[k] == AppsFrom30[k - 0x30];
      } else if k < 0x50 {
        assert AppTable[k] == AppsFrom40[k - 0x40];
      } else if k < 0x60 {
        assert AppTable[k] == AppsFrom50[k - 0x50];
      } else {
        assert AppTable[k] == AppsHigh[k - 0x60];
      }
    }
  }

  /** Every name is made of the characters of `\w`: capitals, digits and underscores. */
  ghost predicate WordRows(items: seq<(string, nat)>) {
    forall k | 0 <= k < |items| :: AllWordChars(items[k].0)
  }

  lemma From00Words00() ensures forall k | 0 <= k < 4 :: AllWordChars(AppsFrom00[k].0) {}
  lemma From00Words04() ensures forall k | 4 <= k < 8 :: AllWordChars(AppsFrom00[k].0) {}
  lemma From00Words08() ensures AllWordChars(AppsFrom00[8].0) {}
  lemma From00Words09() ensures forall k | 9 <= k < 12 :: AllWordChars(AppsFrom00[k].0) {}
  lemma From00Words12() ensures forall k | 12 <= k < 16 :: AllWordChars(AppsFrom00[k].0) {}
  lemma From10Words00() ensures forall k | 0 <= k < 4 :: AllWordChars(AppsFrom10[k].0) {}
  lemma From10Words04() ensures forall k | 4 <= k < 8 :: AllWordChars(AppsFrom10[k].0) {}
  lemma From10Words08() ensures forall k | 8 <= k < 12 :: AllWordChars(AppsFrom10[k].0) {}
  lemma From10Words12() ensures forall k | 12 <= k < 16 :: AllWordChars(AppsFrom10[k].0) {}
  lemma From20Words00() ensures forall k | 0 <= k < 4 :: AllWordChars(AppsFrom20[k].0) {}
  lemma From20Words04() ensures forall k | 4 <= k < 8 :: AllWordChars(AppsFrom20[k].0) {}
  lemma From20Words08() ensures forall k | 8 <= k < 12 :: AllWordChars(AppsFrom20[k].0) {}
  lemma From20Words12() ensures forall k | 12 <= k < 16 :: AllWordChars(AppsFrom20[k].0) {}
  lemma From30Words00() ensures forall k | 0 <= k < 4 :: AllWordChars(AppsFrom30[k].0) {}
  lemma From30Words04() ensures forall k | 4 <= k < 8 :: AllWordChars(AppsFrom30[k].0) {}
  lemma From30Words08() ensures forall k | 8 <= k < 12 :: AllWordChars(AppsFrom30[k].0) {}
  lemma From30Words12() ensures forall k | 12 <= k < 16 :: AllWordChars(AppsFrom30[k].0) {}
  lemma From40Words00() ensures forall k | 0 <= k < 4 :: AllWordChars(AppsFrom40[k].0) {}
  lemma From40Words04() ensures forall k | 4 <= k < 8 :: AllWordChars(AppsFrom40[k].0) {}
  lemma From40Words08() ensures forall k | 8 <= k < 12 :: AllWordChars(AppsFrom40[k].0) {}
  lemma From40Words12() ensures forall k | 12 <= k < 16 :: AllWordChars(AppsFrom40[k].0) {}
  lemma From50Words00() ensures forall k | 0 <= k < 4 :: AllWordChars(AppsFrom50[k].0) {}
  lemma From50Words04() ensures forall k | 4 <= k < 8 :: AllWordChars(AppsFrom50[k].0) {}
  lemma From50Words08() ensures forall k | 8 <= k < 12 :: AllWordChars(AppsFrom50[k].0) {}
  lemma From50Words12() ensures forall k | 12 <= k < 16 :: AllWordChars(AppsFrom50[k].0) {}

  lemma AppTableWords()
    ensures WordRows(AppTable)
  {
    From00Facts(); From10Facts(); From20Facts(); From30Facts(); From40Facts(); From50Facts(); HighFacts();
    From00Words00(); From00Words04(); From00Words08(); From00Words09(); From00Words12();
    From10Words00(); From10Words04(); From10Words08(); From10Words12();
    From20Words00(); From20Words04(); From20Words08(); From20Words12();
    From30Words00(); From30Words04(); From30Words08(); From30Words12();
    From40Words00(); From40Words04(); From40Words08(); From40Words12();
    From50Words00(); From50Words04(); From50Words08(); From50Words12();
    assert AllWordChars("WF_JUMP_APP") && AllWordChars("OFFLOAD");
    forall k | 0 <= k < |AppTable| ensures AllWordChars(AppTable[k].0) {
      if k < 0x10 {
        assert AppTable[k] == AppsFrom00[k];
      } else if k < 0x20 {
        assert AppTable[k] == AppsFrom10[k - 0x10];
      } else if k < 0x30 {
        assert AppTable[k] == AppsFrom20[k - 0x20];
      } else if k < 0x40 {
        assert AppTable[k] == AppsFrom30[k - 0x30];
      } else if k < 0x50 {
        assert AppTable[k] == AppsFrom40[k - 0x40];
      } else if k < 0x60 {
        assert AppTable[k] == AppsFrom50[k - 0x50];
      } else {
        assert AppTable[k] == AppsHigh[k - 0x60];
      }
    }
  }

  lemma AppTableIdsDistinct()
    ensures DistinctKeys(Swapped(AppTable))
  {
    AppTableIds();
  }

  // ---------------------------------------------------------------------
  // The two dicts

  /** With distinct keys, the dict maps every item's key to that item's value and has one entry per item. */
  lemma ToMapDistinct<K, V>(items: seq<(K, V)>)
    requires DistinctKeys(items)
    ensures forall i | 0 <= i < |items| :: ToMap(items)[items[i].0] == items[i].1
    ensures |ToMap(items)| == |items|
  {
    ToMapValues(items);
    ToMapSize(items);
  }

  /** With distinct keys, every item's key maps to that item's value. */
  lemma {:induction false} ToMapValues<K, V>(items: seq<(K, V)>)
    requires DistinctKeys(items)
    ensures forall i | 0 <= i < |items| :: ToMap(items)[items[i].0] == items[i].1
    decreases |items|
  {
    if items != [] {
      var init, last := items[..|items| - 1], items[|items| - 1];
      DistinctKeysInit(items);
      ToMapValues(init);
      var m := ToMap(init);
      assert ToMap(items) == m[last.0 := last.1];
      forall i | 0 <= i < |items| ensures ToMap(items)[items[i].0] == items[i].1 {
        if i < |init| {
          assert items[i] == init[i];
        }
      }
    }
  }

  /** With distinct keys, the dict has one entry per item. */
  lemma {:induction false} ToMapSize<K, V>(items: seq<(K, V)>)
    requires DistinctKeys(items)
    ensures |ToMap(items)| == |items|
    decreases |items|
  {
    if items != [] {
      var init, last := items[..|items| - 1], items[|items| - 1];
      DistinctKeysInit(items);
      ToMapSize(init);
      ToMapFresh(init, last.0);
      var m := ToMap(init);
      assert ToMap(items) == m[last.0 := last.1];
    }
  }

  /** Dropping the last item keeps the keys distinct, and the last key is none of the others. */
  lemma DistinctKeysInit<K, V>(items: seq<(K, V)>)
    requires DistinctKeys(items) && items != []
    ensures DistinctKeys(items[..|items| - 1])
    ensures forall i | 0 <= i < |items| - 1 :: items[i].0 != items[|items| - 1].0
  {
    var init := items[..|items| - 1];
    forall a, b | 0 <= a < b < |init| ensures init[a].0 != init[b].0 {
      assert init[a] == items[a] && init[b] == items[b];
    }
  }

  /** A key that no item has is not in the dict. */
  lemma ToMapFresh<K, V>(items: seq<(K, V)>, k: K)
    requires forall i | 0 <= i < |items| :: items[i].0 != k
    ensures k !in ToMap(items)
  {
  }

  /** Exactly the ids 0x0000 through 0x005F, 0x00FF and 0x1000 are in the directory. */
  lemma DirectoryIds(id: nat)
    ensures id in IdToName <==> id < 0x60 || id == 0x00FF || id == 0x1000
  {
    AppTableIds();
    var sw := Swapped(AppTable);
    if id < 0x60 {
      assert sw[id].0 == id;
    } else if id == 0x00FF {
      assert sw[96].0 == id;
    } else if id == 0x1000 {
      assert sw[97].0 == id;
    } else {
      forall i | 0 <= i < |sw| ensures sw[i].0 != id {
      }
    }
  }

  /** APP_NAME_TO_ID and APP_ID_TO_NAME hold 98 entries each. */
  lemma DirectorySizes()
    ensures |NameToId| == 98 && |IdToName| == 98
  {
    AppTableIds();
    AppTableNamesDistinct();
    AppTableIdsDistinct();
    ToMapDistinct(AppTable);
    ToMapDistinct(Swapped(AppTable));
  }

  /** With distinct keys and distinct values, the dict of swapped pairs undoes the dict. */
  lemma ToMapSwappedInverse<K, V>(items: seq<(K, V)>)
    requires DistinctKeys(items) && DistinctKeys(Swapped(items))
    ensures forall k | k in ToMap(items) :: ToMap(items)[k] in ToMap(Swapped(items)) && ToMap(Swapped(items))[ToMap(items)[k]] == k
    ensures forall v | v in ToMap(Swapped(items)) :: ToMap(Swapped(items))[v] in ToMap(items) && ToMap(items)[ToMap(Swapped(items))[v]] == v
  {
    var sw := Swapped(items);
    ToMapDistinct(items);
    ToMapDistinct(sw);
    forall k | k in ToMap(items) ensures ToMap(items)[k] in ToMap(sw) && ToMap(sw)[ToMap(items)[k]] == k {
      var i :| 0 <= i < |items| && items[i].0 == k;
      assert sw[i] == (items[i].1, k);
    }
    forall v | v in ToMap(sw) ensures ToMap(sw)[v] in ToMap(items) && ToMap(items)[ToMap(sw)[v]] == v {
      var i :| 0 <= i < |sw| && sw[i].0 == v;
      assert items[i] == (sw[i].1, v);
    }
  }

  /** APP_ID_TO_NAME is the exact inverse of APP_NAME_TO_ID, and both hold 98 entries. */
  lemma DirectoryInverse()
    ensures |NameToId| == 98 && |IdToName| == 98
    ensures forall name | name in NameToId :: NameToId[name] in IdToName && IdToName[NameToId[name]] == name
    ensures forall id | id in IdToName :: IdToName[id] in NameToId && NameToId[IdToName[id]] == id
  {
    DirectorySizes();
    AppTableNamesDistinct();
    AppTableIdsDistinct();
    ToMapSwappedInverse(AppTable);
  }

  /** No name in the directory begins with "Unknown" or with "MI_". */
  lemma DirectoryNamesUnreserved()
    ensures forall name | name in NameToId :: !("Unknown" <= name) && !("MI_" <= name)
  {
    AppTableUnreserved();
    forall name | name in NameToId ensures !("Unknown" <= name) && !("MI_" <= name) {
      var i :| 0 <= i < |AppTable| && AppTable[i].0 == name;
      UnreservedPrefixes(name);
    }
  }

  /** Every id in the directory names one of its names. */
  lemma IdToNameValues(id: nat)
    requires id in IdToName
    ensures IdToName[id] in NameToId && !("Unknown" <= IdToName[id])
  {
    DirectoryInverse();
    DirectoryNamesUnreserved();
  }

  /** An entry's name begins with "Unknown" exactly when its id is missing from the directory. */
  lemma AppNameUnknownIff(id: nat)
    ensures "Unknown" <= AppName(id) <==> id !in IdToName
  {
    if id in IdToName {
      IdToNameValues(id);
    } else {
      UnknownLabelPrefix(id);
    }
  }

  /** The fallback label begins with "Unknown". */
  lemma UnknownLabelPrefix(id: nat)
    ensures "Unknown" <= UnknownLabel(id)
  {
    assert UnknownLabel(id)[..7] == "Unknown";
  }

  /** No entry's name begins with "MI_". */
  lemma AppNameNoMiPrefix(id: nat)
    ensures !("MI_" <= AppName(id))
  {
    if id in IdToName {
      DirectoryInverse();
      DirectoryNamesUnreserved();
    } else {
      assert AppName(id)[0] == 'U';
    }
  }

  /** A known id's name maps back to the id; an unknown id's label carries the id in decimal. */
  lemma AppNameRoundTrip(id: nat)
    ensures id in IdToName ==> AppName(id) in NameToId && NameToId[AppName(id)] == id
    ensures id !in IdToName ==>
      var name := AppName(id);
      && |name| > 15 && name[..14] == "Unknown(appid=" && name[|name| - 1] == ')'
      && AllDigits(name[14..|name| - 1]) && DecimalValue(name[14..|name| - 1]) == id
  {
    if id in IdToName {
      DirectoryInverse();
    } else {
      var name := AppName(id);
      assert name[14..|name| - 1] == Decimal(id);
      DecimalRoundTrip(id);
    }
  }

  /** The name of the row at position i of the table is the name of that row's id. */
  lemma AppNameAtRow(i: nat)
    requires i < |AppTable|
    ensures AppName(AppTable[i].1) == AppTable[i].0
  {
    AppTableIdsDistinct();
    var sw := Swapped(AppTable);
    ToMapDistinct(sw);
    assert sw[i] == (AppTable[i].1, AppTable[i].0);
  }

  /** Decimal 15 names SPORTS (0x000F), not CLOCK, which is 9. */
  lemma AppNameExamples()
    ensures AppName(15) == "SPORTS"
    ensures AppName(9) == "CLOCK"
  {
    AppTableIds();
    assert AppTable[15] == AppsFrom00[15];
    assert AppTable[9] == AppsFrom00[9];
    AppNameAtRow(15);
    AppNameAtRow(9);
  }

  /** 0x9999 is not in the directory and gets the fallback label. */
  lemma AppNameUnknownExample()
    ensures AppName(0x9999) == "Unknown(appid=39321)"
  {
    DirectoryIds(0x9999);
    DecimalExample();
  }

  /** Two ids share a name only when they are the same id. */
  lemma AppNameInjective(a: nat, b: nat)
    requires AppName(a) == AppName(b)
    ensures a == b
  {
    AppNameUnknownIff(a);
    AppNameUnknownIff(b);
    AppNameRoundTrip(a);
    AppNameRoundTrip(b);
  }

  /** The names in the directory are words. */
  lemma AppNameWord(id: nat)
    requires id in IdToName
    ensures AllWordChars(AppName(id))
  {
    AppTableWords();
    AppTableIdsDistinct();
    var sw := Swapped(AppTable);
    var i :| 0 <= i < |sw| && sw[i].0 == id;
    AppNameAtRow(i);
  }

  /** A word holds neither a comma nor a line break. */
  lemma WordExcludes(w: string)
    requires AllWordChars(w)
    ensures Excludes(w, ',') && Excludes(w, '\n')
  {
  }

  /** No entry's name holds a comma or a line break, so it fits in one CSV field. */
  lemma AppNameFitsField(id: nat)
    ensures Excludes(AppName(id), ',') && Excludes(AppName(id), '\n')
  {
    if id in IdToName {
      AppNameWord(id);
      WordExcludes(AppName(id));
    } else {
      var name := AppName(id);
      DecimalExcludes(id, ',');
      DecimalExcludes(id, '\n');
      assert name == "Unknown(appid=" + Decimal(id) + ")";
    }
  }
}
