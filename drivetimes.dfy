/** Drive-time estimates for meet locations (client/src/lib/drive-times.ts):
    a location is normalised to lower-case letters and digits and looked up in
    a fixed table, retrying once without a trailing state or country name. */
module DriveTimes {
  import opened Wrappers
  import opened JsText

  /** `DRIVE_TIME_MAP`. */
  const DriveTimeMap: map<string, string> := map[
    "modestoca" := "~1h 25m",
    "santarosaca" := "~2h 5m",
    "ucdavisca" := "~2h 20m",
    "collegesanmateoca" := "~35m",
    "fresnoca" := "~2h 45m",
    "paloaltoca" := "~25m",
    "haywardca" := "~40m",
    "sanfranciscoca" := "~1h",
    "hayward" := "~40m",
    "paloalto" := "~25m",
    "sanmateo" := "~35m",
    "modesto" := "~1h 25m",
    "santarosa" := "~2h 5m",
    "fresno" := "~2h 45m",
    "ucdavis" := "~2h 20m",
    "newclarkcityphilippines" := "Flight required",
    "renonv" := "~3h 45m",
    "reno" := "~3h 45m",
    "spokanewa" := "Flight required",
    "spokane" := "Flight required",
    "chicoca" := "~3h 5m",
    "chico" := "~3h 5m",
    "montereyca" := "~1h 30m",
    "monterey" := "~1h 30m",
    "azusaca" := "~5h 45m",
    "azusa" := "~5h 45m",
    "pleasantvalley" := "~3h 5m",
    "pleasantvalleyca" := "~3h 5m"
  ]

  predicate IsKeyChar(c: char) {
    'a' <= c <= 'z' || '0' <= c <= '9'
  }

  /** What one input character leaves behind after `toLowerCase()` and
      `replace(/[^a-z0-9]/g, "")`: upper-case ASCII letters fold, lower-case
      letters and digits stay, U+0130 (dotted capital I) lower-cases to "i"
      plus a combining dot that is then removed, U+212A (Kelvin sign)
      lower-cases to "k", and every other character is removed. */
  function KeyChars(c: char): (r: string)
    ensures |r| <= 1
    ensures forall k :: 0 <= k < |r| ==> IsKeyChar(r[k])
    ensures IsKeyChar(c) ==> r == [c]
    ensures 'A' <= c <= 'Z' ==> r == [Lower(c)]
  {
    if 'A' <= c <= 'Z' then [Lower(c)]
    else if IsKeyChar(c) then [c]
    else if c == '\U{0130}' then "i"
    else if c == '\U{212A}' then "k"
    else ""
  }

  /** Lower-casing followed by removal of everything but `[a-z0-9]`. */
  function KeepKeyChars(s: string): (r: string)
    ensures forall k :: 0 <= k < |r| ==> IsKeyChar(r[k])
    ensures |r| <= |s|
  {
    if |s| == 0 then "" else KeyChars(s[0]) + KeepKeyChars(s[1..])
  }

  /** `normalizeLocation`. */
  function NormalizeLocation(input: string): string {
    Trim(KeepKeyChars(input))
  }

  lemma KeyCharIsNotSpace(c: char)
    requires IsKeyChar(c)
    ensures !IsSpace(c)
  {
  }

  /** The final `trim()` never has anything to remove. */
  lemma NormalizeLocationSkipsTrim(input: string)
    ensures NormalizeLocation(input) == KeepKeyChars(input)
  {
    var s := KeepKeyChars(input);
    if |s| > 0 {
      KeyCharIsNotSpace(s[0]);
      KeyCharIsNotSpace(s[|s| - 1]);
      TrimKeepsUnspaced(s);
    }
  }

  /** A normalised location holds only lower-case ASCII letters and digits. */
  lemma NormalizedLocationAlphabet(input: string)
    ensures forall k :: 0 <= k < |NormalizeLocation(input)| ==> IsKeyChar(NormalizeLocation(input)[k])
  {
    NormalizeLocationSkipsTrim(input);
  }

  /** A string of letters and digits keeps every character. */
  lemma {:induction false} KeepKeyCharsOfKeys(s: string)
    requires forall k :: 0 <= k < |s| ==> IsKeyChar(s[k])
    ensures KeepKeyChars(s) == s
    decreases |s|
  {
    if |s| > 0 {
      KeepKeyCharsOfKeys(s[1..]);
      assert s == [s[0]] + s[1..];
    }
  }

  /** Normalising twice is normalising once. */
  lemma NormalizeLocationIdempotent(input: string)
    ensures NormalizeLocation(NormalizeLocation(input)) == NormalizeLocation(input)
  {
    var n := NormalizeLocation(input);
    NormalizedLocationAlphabet(input);
    KeepKeyCharsOfKeys(n);
    NormalizeLocationSkipsTrim(n);
  }

  /** The alternatives of `/(california|ca|nevada|nv|washington|wa|usa)$/`. */
  const StateSuffixes: seq<string> := ["california", "ca", "nevada", "nv", "washington", "wa", "usa"]

  predicate EndsWith(s: string, w: string) {
    |w| <= |s| && s[|s| - |w|..] == w
  }

  /** No listed name ends another, so at most one ends any string. */
  lemma SuffixesAreSuffixFree(i: nat, j: nat)
    requires i < |StateSuffixes| && j < |StateSuffixes| && i != j
    ensures !EndsWith(StateSuffixes[i], StateSuffixes[j])
  {
  }

  /** The leftmost index p >= from at which the rest of the string is one of
      the listed names: where the anchored pattern first matches. */
  function SuffixStart(s: string, from: nat): (r: Option<nat>)
    requires from <= |s|
    ensures r.Some? ==> from <= r.value <= |s| && s[r.value..] in StateSuffixes
    ensures r.None? ==> forall p :: from <= p <= |s| ==> s[p..] !in StateSuffixes
    ensures r.Some? ==> forall p :: from <= p < r.value ==> s[p..] !in StateSuffixes
    decreases |s| - from
  {
    if s[from..] in StateSuffixes then Some(from)
    else if from == |s| then None
    else SuffixStart(s, from + 1)
  }

  /** `normalized.replace(/(california|ca|nevada|nv|washington|wa|usa)$/, "")`. */
  function StripState(s: string): (r: string)
  {
    match SuffixStart(s, 0)
    case None => s
    case Some(p) => s[..p]
  }

  /** A string ending in a listed name loses exactly that name. */
  lemma StripStateRemovesSuffix(s: string, w: string)
    requires w in StateSuffixes && EndsWith(s, w)
    ensures StripState(s) == s[..|s| - |w|]
  {
    var q := |s| - |w|;
    assert s[q..] == w;
    var p := SuffixStart(s, 0).value;
    if p != q {
      var i :| 0 <= i < |StateSuffixes| && StateSuffixes[i] == w;
      var j :| 0 <= j < |StateSuffixes| && StateSuffixes[j] == s[p..];
      assert p < q;
      assert s[p..][|s[p..]| - |w|..] == w;
      SuffixesAreSuffixFree(j, i);
    }
  }

  /** A string ending in no listed name is left alone. */
  lemma StripStateKeepsOthers(s: string)
    requires forall w :: w in StateSuffixes ==> !EndsWith(s, w)
    ensures StripState(s) == s
  {
    var r := SuffixStart(s, 0);
    if r.Some? {
      assert EndsWith(s, s[r.value..]);
    }
  }

  /** `getDriveTimeEstimate` against a table: the exact key, else the key
      without a trailing state or country name (when that leaves something),
      else null. */
  function EstimateIn(table: map<string, string>, location: string): (r: Option<string>)
    ensures r.Some? ==> r.value in table.Values
  {
    var normalized := NormalizeLocation(location);
    if normalized in table then Some(table[normalized])
    else RetryLookup(table, StripState(normalized))
  }

  /** `withoutState && withoutState in DRIVE_TIME_MAP`: an empty key is not
      looked up. */
  function RetryLookup(table: map<string, string>, key: string): (r: Option<string>)
    ensures r.Some? <==> key != "" && key in table
    ensures r.Some? ==> r.value == table[key]
  {
    if key != "" && key in table then Some(table[key]) else None
  }

  /** `getDriveTimeEstimate`: a value of `DRIVE_TIME_MAP` or null. */
  function GetDriveTimeEstimate(location: string): (r: Option<string>)
    ensures r.Some? ==> r.value in DriveTimeMap.Values
  {
    EstimateIn(DriveTimeMap, location)
  }

  /** An exact normalised key is found directly. */
  lemma ExactKeyFound(table: map<string, string>, location: string)
    requires NormalizeLocation(location) in table
    ensures EstimateIn(table, location) == Some(table[NormalizeLocation(location)])
  {
  }

  /** A key missing from the table is retried once, stripped. */
  lemma MissedKeyRetries(table: map<string, string>, location: string)
    requires NormalizeLocation(location) !in table
    ensures EstimateIn(table, location) == RetryLookup(table, StripState(NormalizeLocation(location)))
  {
  }

  /** Otherwise the key is retried once without the name it ends in. */
  lemma RetryWithoutState(table: map<string, string>, location: string, i: nat)
    requires NormalizeLocation(location) !in table
    requires i < |StateSuffixes| && EndsWith(NormalizeLocation(location), StateSuffixes[i])
    ensures EstimateIn(table, location) ==
      RetryLookup(table, NormalizeLocation(location)[..|NormalizeLocation(location)| - |StateSuffixes[i]|])
  {
    StripStateRemovesSuffix(NormalizeLocation(location), StateSuffixes[i]);
    MissedKeyRetries(table, location);
  }

  /** A key ending in no listed name and missing from the table has no
      estimate. */
  lemma UnknownPlainKey(table: map<string, string>, location: string)
    requires NormalizeLocation(location) !in table
    requires forall w :: w in StateSuffixes ==> !EndsWith(NormalizeLocation(location), w)
    ensures EstimateIn(table, location).None?
  {
    StripStateKeepsOthers(NormalizeLocation(location));
  }

  /** No listed state or country name is itself a key of `DRIVE_TIME_MAP`. */
  lemma StateNamesAreNotKeys(w: string)
    requires w in StateSuffixes
    ensures w !in DriveTimeMap
  {
  }

  /** A bare state or country name ("CA", "USA") has no estimate: stripping
      it leaves nothing to look up. */
  lemma BareStateHasNoEstimate(location: string)
    requires NormalizeLocation(location) in StateSuffixes
    ensures GetDriveTimeEstimate(location).None?
  {
    var n := NormalizeLocation(location);
    StateNamesAreNotKeys(n);
    assert EndsWith(n, n);
    StripStateRemovesSuffix(n, n);
  }

  /** Normalisation works character by character. */
  lemma {:induction false} KeepKeyCharsAppend(a: string, b: string)
    ensures KeepKeyChars(a + b) == KeepKeyChars(a) + KeepKeyChars(b)
    decreases |a|
  {
    if |a| > 0 {
      assert (a + b)[0] == a[0] && (a + b)[1..] == a[1..] + b;
      KeepKeyCharsAppend(a[1..], b);
    } else {
      assert a + b == b;
    }
  }

  lemma PaloKey()
    ensures KeepKeyChars("Palo") == "palo"
  {
    assert KeepKeyChars("o") == "o";
    assert KeepKeyChars("lo") == "lo";
    assert KeepKeyChars("alo") == "alo";
  }

  lemma AltoKey()
    ensures KeepKeyChars(" Alto") == "alto"
  {
    assert KeepKeyChars("o") == "o";
    assert KeepKeyChars("to") == "to";
    assert KeepKeyChars("lto") == "lto";
    assert KeepKeyChars("Alto") == "alto";
  }

  lemma CaKey()
    ensures KeepKeyChars(", CA") == "ca"
  {
    assert KeepKeyChars("A") == "a";
    assert KeepKeyChars("CA") == "ca";
    assert KeepKeyChars(" CA") == "ca";
  }

  lemma PaloAltoEntry()
    ensures "paloaltoca" in DriveTimeMap && DriveTimeMap["paloaltoca"] == "~25m"
  {
  }

  /** "Palo Alto, CA" is about 25 minutes away. */
  lemma PaloAltoNormalized(location: string)
    requires location == "Palo" + " Alto" + ", CA"
    ensures NormalizeLocation(location) == "paloaltoca"
  {
    PaloKey();
    AltoKey();
    CaKey();
    KeepKeyCharsAppend("Palo" + " Alto", ", CA");
    KeepKeyCharsAppend("Palo", " Alto");
    NormalizeLocationSkipsTrim(location);
  }

  lemma PaloAltoExample()
    ensures GetDriveTimeEstimate("Palo Alto, CA") == Some("~25m")
  {
    PaloAltoNormalized("Palo Alto, CA");
    PaloAltoEntry();
    ExactKeyFound(DriveTimeMap, "Palo Alto, CA");
  }
}
