/** Colour profiles: the built-in table, the merge performed when saved
    profiles are loaded, the projection written when profiles are saved, and
    the profile built from a sampled hue during calibration. */
module Profiles {
  import opened Wrappers
  import opened OrderedTable

  /** A colour or a profile bound in HSV space. The components are plain
      integers: OpenCV's 8-bit hue runs 0..179 and saturation and value
      0..255, but two built-in upper bounds (Pink and Black) use hue 180. */
  datatype Hsv = Hsv(h: int, s: int, v: int)

  type Priority = p: int | p > 0 witness 1

  /** A hue as the median of the sampled area yields it. */
  type Hue = h: int | 0 <= h <= 179

  /** A profile: inclusive HSV bounds and an optional priority; a lower
      priority number gives a higher score for the same pixel count. */
  datatype Profile = Profile(lower: Hsv, upper: Hsv, priority: Option<Priority>)

  /** What the saved-profiles file keeps of a profile: its bounds only. */
  datatype Bounds = Bounds(lower: Hsv, upper: Hsv)

  /** The priority assumed for a profile that has none. */
  const MissingPriority: Priority := 5

  /** Half-width of the hue window of a calibrated profile. */
  const HueTolerance := 15

  const MaxHue := 179

  function EffectivePriority(p: Profile): (r: Priority)
    ensures p.priority.Some? ==> r == p.priority.value
    ensures p.priority.None? ==> r == MissingPriority
  {
    p.priority.GetOr(MissingPriority)
  }

  /** Per-pixel test of `cv2.inRange`: every component within its inclusive bounds. */
  predicate InRange(c: Hsv, p: Profile)
  {
    && p.lower.h <= c.h <= p.upper.h
    && p.lower.s <= c.s <= p.upper.s
    && p.lower.v <= c.v <= p.upper.v
  }

  /** Lower bound at most upper bound in every component. */
  predicate WellFormed(p: Profile)
  {
    p.lower.h <= p.upper.h && p.lower.s <= p.upper.s && p.lower.v <= p.upper.v
  }

  /** The built-in profiles, in their declaration order. */
  const Defaults: Table<Profile> := [
    ("Red",    Profile(Hsv(0, 120, 70),  Hsv(10, 255, 255),  Some(1))),
    ("Green",  Profile(Hsv(36, 50, 50),  Hsv(89, 255, 255),  Some(2))),
    ("Blue",   Profile(Hsv(90, 50, 50),  Hsv(130, 255, 255), Some(3))),
    ("Yellow", Profile(Hsv(15, 100, 100), Hsv(36, 255, 255), Some(4))),
    ("Orange", Profile(Hsv(10, 100, 100), Hsv(20, 255, 255), Some(5))),
    ("Purple", Profile(Hsv(130, 50, 50), Hsv(160, 255, 255), Some(6))),
    ("Pink",   Profile(Hsv(160, 50, 50), Hsv(180, 255, 255), Some(7))),
    ("Cyan",   Profile(Hsv(80, 50, 50),  Hsv(100, 255, 255), Some(8))),
    ("Black",  Profile(Hsv(0, 0, 0),     Hsv(180, 255, 40),  Some(10)))
  ]

  const DefaultNames: seq<string> := Keys(Defaults)

  lemma DefaultsSound()
    ensures UniqueKeys(Defaults)
    ensures forall i :: 0 <= i < |Defaults| ==> WellFormed(Defaults[i].1)
    ensures |DefaultNames| == 9
  {
  }

  function BoundsOf(p: Profile): Bounds
  {
    Bounds(p.lower, p.upper)
  }

  /** A profile read back from the file: its bounds, and no priority. */
  function FromBounds(b: Bounds): Profile
  {
    Profile(b.lower, b.upper, None)
  }

  function AsProfiles(entries: Table<Bounds>): Table<Profile>
  {
    Project(entries, [], FromBounds)
  }

  /** What opening and parsing the saved-profiles file can yield. */
  datatype StoredFile =
    | Missing               // the file does not exist
    | Unreadable            // opening or parsing raised
    | NotAnObject           // the JSON value is not an object
    | Stored(entries: Table<Bounds>)

  /** The object written to the file: the non-built-in names, in table
      order. */
  function SaveProjection(t: Table<Profile>): (r: Table<Bounds>)
    ensures Keys(r) == Without(Keys(t), DefaultNames)
  {
    Project(t, DefaultNames, BoundsOf)
  }

  /** The file holds no built-in name, and holds every other profile's
      bounds only. */
  lemma SaveProjectionLookup(t: Table<Profile>, k: string)
    ensures k in DefaultNames ==> Lookup(SaveProjection(t), k).None?
    ensures k !in DefaultNames ==>
      Lookup(SaveProjection(t), k) == if Lookup(t, k).None? then None else Some(BoundsOf(Lookup(t, k).value))
  {
    ProjectLookup(t, DefaultNames, BoundsOf, k);
  }

  /** Profile loading as the source writes it: when the file is missing or
      holds something other than an object, the function falls off its end
      and yields no table at all. */
  function LoadAsWritten(f: StoredFile): (r: Option<Table<Profile>>)
    ensures r.None? <==> f == Missing || f == NotAnObject
    ensures r.Some? ==> DefaultNames <= Keys(r.value)
  {
    MergeKeepsPrefix(Defaults, if f.Stored? then AsProfiles(f.entries) else []);
    match f
    case Missing => None
    case NotAnObject => None
    case Unreadable => Some(Defaults)
    case Stored(entries) => Some(Merge(Defaults, AsProfiles(entries)))
  }

  /** Profile loading with every failure falling back to the built-in table. */
  function Load(f: StoredFile): (r: Table<Profile>)
    ensures DefaultNames <= Keys(r)
    ensures UniqueKeys(r)
    ensures !f.Stored? ==> r == Defaults
    ensures LoadAsWritten(f).Some? ==> LoadAsWritten(f).value == r
  {
    DefaultsSound();
    match f
    case Stored(entries) =>
      MergeKeepsPrefix(Defaults, AsProfiles(entries));
      MergeUnique(Defaults, AsProfiles(entries));
      Merge(Defaults, AsProfiles(entries))
    case _ => Defaults
  }

  /** The source's loader yields no table for a first run (no file yet) and
      for a file holding a JSON array. */
  lemma LoadAsWrittenLosesTable()
    ensures LoadAsWritten(Missing) == None
    ensures LoadAsWritten(NotAnObject) == None
    ensures |Load(Missing)| == |Defaults| == 9
  {
  }

  /** A saved entry overrides a built-in of the same name; every other
      built-in is kept; other saved names are added without a priority. */
  lemma LoadLookup(entries: Table<Bounds>, k: string)
    requires UniqueKeys(entries)
    ensures Lookup(Load(Stored(entries)), k) ==
      if Lookup(entries, k).Some? then Some(FromBounds(Lookup(entries, k).value))
      else Lookup(Defaults, k)
  {
    var ps := AsProfiles(entries);
    ProjectUnique(entries, [], FromBounds);
    ProjectLookup(entries, [], FromBounds, k);
    MergeLookup(Defaults, ps, k);
  }

  /** The loaded table lists the built-ins first, then the new saved names
      in file order. */
  lemma LoadKeys(entries: Table<Bounds>)
    requires UniqueKeys(entries)
    ensures Keys(Load(Stored(entries))) == DefaultNames + Without(Keys(entries), DefaultNames)
  {
    var ps := AsProfiles(entries);
    WithoutNothing(Keys(entries));
    ProjectUnique(entries, [], FromBounds);
    MergeKeys(Defaults, ps);
  }

  /** Reloading what was saved restores the built-ins and every other
      profile's bounds; the priority of the non-built-in profiles is lost. */
  lemma SaveThenLoad(t: Table<Profile>, k: string)
    requires UniqueKeys(t)
    ensures Lookup(Load(Stored(SaveProjection(t))), k) ==
      if k in DefaultNames then Lookup(Defaults, k)
      else if Lookup(t, k).None? then None
      else Some(Profile(Lookup(t, k).value.lower, Lookup(t, k).value.upper, None))
  {
    ProjectUnique(t, DefaultNames, BoundsOf);
    SaveProjectionLookup(t, k);
    LoadLookup(SaveProjection(t), k);
  }

  /** A table that lists the built-ins first keeps its whole key order
      across a save and a reload. */
  lemma RestartKeepsOrder(t: Table<Profile>)
    requires UniqueKeys(t)
    requires DefaultNames <= Keys(t)
    ensures Keys(Load(Stored(SaveProjection(t)))) == Keys(t)
  {
    var saved := SaveProjection(t);
    ProjectUnique(t, DefaultNames, BoundsOf);
    LoadKeys(saved);
    RestorePrefix(t, DefaultNames, Keys(saved));
  }

  /** The profile created from a sampled hue: a hue window of ±15 clipped to
      the hue range, saturation and value from 50 to 255, priority 5. */
  function Calibrated(h: Hue): (p: Profile)
    ensures WellFormed(p)
    ensures 0 <= p.lower.h <= h <= p.upper.h <= MaxHue
    ensures p.upper.h - p.lower.h <= 2 * HueTolerance
    ensures p.priority == Some(5)
  {
    Profile(Hsv(if h - HueTolerance < 0 then 0 else h - HueTolerance, 50, 50),
            Hsv(if h + HueTolerance > MaxHue then MaxHue else h + HueTolerance, 255, 255),
            Some(5))
  }

  /** On valid hues, a calibrated profile matches exactly the colours within
      15 of the sampled hue whose saturation and value are at least 50. */
  lemma CalibratedMatches(h: Hue, c: Hsv)
    requires 0 <= c.h <= MaxHue && 0 <= c.s <= 255 && 0 <= c.v <= 255
    ensures InRange(c, Calibrated(h)) <==> -HueTolerance <= c.h - h <= HueTolerance && c.s >= 50 && c.v >= 50
  {
  }
}
