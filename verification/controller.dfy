/** The per-iteration controller: one camera frame (classification and
    debounce when detection is on) followed by one key press (toggle,
    sampling, name editing, calibration commit, quit). */
module Controller {
  import opened Wrappers
  import opened OrderedTable
  import opened Profiles
  import opened Classifier
  import opened Stability

  /** `cv2.waitKey(1) & 0xFF`. */
  type KeyCode = k: int | 0 <= k <= 255

  const Backspace: KeyCode := 8
  const Enter: KeyCode := 13
  const Escape: KeyCode := 27
  const Space: KeyCode := 32
  const LetterQ: KeyCode := 113
  const LetterS: KeyCode := 115
  const LastPrintable: KeyCode := 126

  /** What a key press asks for, after the dispatch precedence is applied. */
  datatype Intent =
    | ToggleDetection
    | BeginSample
    | CommitSample
    | DeleteChar
    | CancelSample
    | AppendChar(c: char)
    | Quit
    | Ignore

  /** The key dispatch: space and `s` are honoured before the sampling
      branch, so neither can be typed into a name; `q` quits only outside
      sampling and is typed while sampling. */
  function Decode(key: KeyCode, sampling: bool): (i: Intent)
    ensures key == Space ==> i == ToggleDetection
    ensures key == LetterS ==> i == BeginSample
    ensures i == Quit <==> key == LetterQ && !sampling
    ensures !sampling && key != Space && key != LetterS && key != LetterQ ==> i == Ignore
    ensures sampling && key == Enter ==> i == CommitSample
    ensures sampling && key == Backspace ==> i == DeleteChar
    ensures sampling && key == Escape ==> i == CancelSample
    ensures sampling && key !in {Space, LetterS, Enter, Backspace, Escape} && !(Space < key <= LastPrintable) ==> i == Ignore
    ensures i.AppendChar? ==> Space < key <= LastPrintable && key != LetterS && i.c == key as char
    ensures sampling && Space < key <= LastPrintable && key != LetterS ==> i == AppendChar(key as char)
  {
    if key == Space then ToggleDetection
    else if key == LetterS then BeginSample
    else if sampling then
      if key == Enter then CommitSample
      else if key == Backspace then DeleteChar
      else if key == Escape then CancelSample
      else if Space <= key <= LastPrintable then AppendChar(key as char)
      else Ignore
    else if key == LetterQ then Quit
    else Ignore
  }

  /** The loop's state: the detection flag, the debounce, the calibration
      session, the profile table and the last object written to the file
      in this run (None before the first save). */
  datatype State = State(
    active: bool,
    filter: Filter,
    sampling: bool,
    name: string,
    table: Table<Profile>,
    saved: Option<Table<Bounds>>)

  datatype Outcome = Running(st: State) | Stopped

  function Init(f: StoredFile): State
  {
    State(false, Initial, false, "", Load(f), None)
  }

  /** The detection part of one frame; `px` holds the collaborator's
      matched-pixel count for each profile, in table order. */
  function Frame(st: State, px: seq<nat>): (r: State)
    requires |px| == |st.table|
    ensures r.active == st.active && r.sampling == st.sampling && r.name == st.name
    ensures r.table == st.table && r.saved == st.saved
    ensures st.active ==> r.filter == Step(st.filter, Classify(st.table, px).color)
    ensures !st.active ==> r.filter.confirmed == ""
    ensures !st.active ==> r.filter.last == st.filter.last && r.filter.streak == st.filter.streak
  {
    if st.active then st.(filter := Step(st.filter, Classify(st.table, px).color))
    else st.(filter := st.filter.(confirmed := ""))
  }

  /** The effect of one intent. `sample` is the median hue of the sample
      square of the current frame, or None when that square is empty. */
  function Apply(st: State, i: Intent, sample: Option<Hue>): Outcome
  {
    match i
    case ToggleDetection => Running(st.(active := !st.active, filter := st.filter.(streak := 0)))
    case BeginSample => Running(st.(sampling := true, name := ""))
    case CommitSample =>
      if st.name == "" || sample.None? then Running(st.(sampling := false))
      else
        var t := Insert(st.table, st.name, Calibrated(sample.value));
        Running(st.(table := t, saved := Some(SaveProjection(t)), sampling := false))
    case DeleteChar => Running(st.(name := if st.name == "" then "" else st.name[..|st.name| - 1]))
    case CancelSample => Running(st.(sampling := false))
    case AppendChar(c) => Running(st.(name := st.name + [c]))
    case Quit => Stopped
    case Ignore => Running(st)
  }

  function OnKey(st: State, key: KeyCode, sample: Option<Hue>): Outcome
  {
    Apply(st, Decode(key, st.sampling), sample)
  }

  /** One iteration of the camera loop: the frame, then the key. */
  function Tick(st: State, px: seq<nat>, key: KeyCode, sample: Option<Hue>): Outcome
    requires |px| == |st.table|
  {
    OnKey(Frame(st, px), key, sample)
  }

  /** Key presses in sequence, all with the same sample. The source reads one
      key per loop iteration, after that iteration's frame; a frame changes
      none of the state a key press reads or writes apart from detection
      (`TickAsKey`), so a run of keys stands for a run of iterations as far
      as the calibration session and the profiles are concerned. */
  function RunKeys(st: State, keys: seq<KeyCode>, sample: Option<Hue>): Outcome
    decreases |keys|
  {
    if keys == [] then Running(st)
    else
      match OnKey(st, keys[0], sample)
      case Stopped => Stopped
      case Running(next) => RunKeys(next, keys[1..], sample)
  }

  /** A character that can end up in a typed name. */
  predicate NameChar(c: char)
  {
    Space < c as int <= LastPrintable && c != 's'
  }

  /** Keys are unique and the built-ins come first. */
  ghost predicate TableInv(t: Table<Profile>)
  {
    UniqueKeys(t) && |DefaultNames| <= |t| && Keys(t)[..|DefaultNames|] == DefaultNames
  }

  ghost predicate NameInv(name: string)
  {
    forall i :: 0 <= i < |name| ==> NameChar(name[i])
  }

  /** Whatever was saved is the projection of the current table. */
  ghost predicate SavedInv(t: Table<Profile>, saved: Option<Table<Bounds>>)
  {
    saved.Some? ==> saved.value == SaveProjection(t)
  }

  /** The table invariant, a typed name of name characters only, and the
      saved file in step with the table. */
  ghost predicate Inv(st: State)
  {
    TableInv(st.table) && NameInv(st.name) && SavedInv(st.table, st.saved)
  }

  lemma InitInv(f: StoredFile)
    ensures Inv(Init(f))
    ensures Init(f).table == Load(f)
  {
    PrefixAsTake(DefaultNames, Keys(Load(f)));
  }

  lemma InsertKeepsTableInv(t: Table<Profile>, k: string, p: Profile)
    requires TableInv(t)
    ensures TableInv(Insert(t, k, p))
  {
    InsertUnique(t, k, p);
    PrefixAsTake(DefaultNames, Keys(t));
    PrefixAsTake(DefaultNames, Keys(Insert(t, k, p)));
    InsertKeepsPrefix(t, k, p, DefaultNames);
  }

  /** Committing a sample keeps the invariant: the file written is the
      projection of the updated table. */
  lemma CommitPreservesInv(st: State, sample: Option<Hue>)
    requires Inv(st)
    ensures Apply(st, CommitSample, sample).Running?
    ensures Inv(Apply(st, CommitSample, sample).st)
  {
    if st.name != "" && sample.Some? {
      InsertKeepsTableInv(st.table, st.name, Calibrated(sample.value));
    }
  }

  /** Typing a name character keeps the name free of space and `s`. */
  lemma AppendPreservesNameInv(name: string, c: char)
    requires NameInv(name) && NameChar(c)
    ensures NameInv(name + [c])
  {
    var n := name + [c];
    assert forall j :: 0 <= j < |name| ==> n[j] == name[j];
  }

  /** Every intent keeps the invariant, given that a typed character is a
      name character. */
  lemma ApplyPreservesInv(st: State, i: Intent, sample: Option<Hue>)
    requires Inv(st)
    requires i.AppendChar? ==> NameChar(i.c)
    ensures Apply(st, i, sample).Running? ==> Inv(Apply(st, i, sample).st)
  {
    match i
    case CommitSample =>
      CommitPreservesInv(st, sample);
    case AppendChar(c) =>
      AppendPreservesNameInv(st.name, c);
    case DeleteChar =>
      assert NameInv(if st.name == "" then "" else st.name[..|st.name| - 1]);
    case _ =>
  }

  lemma OnKeyPreservesInv(st: State, key: KeyCode, sample: Option<Hue>)
    requires Inv(st)
    ensures OnKey(st, key, sample).Running? ==> Inv(OnKey(st, key, sample).st)
  {
    ApplyPreservesInv(st, Decode(key, st.sampling), sample);
  }

  lemma TickPreservesInv(st: State, px: seq<nat>, key: KeyCode, sample: Option<Hue>)
    requires Inv(st) && |px| == |st.table|
    ensures Tick(st, px, key, sample).Running? ==> Inv(Tick(st, px, key, sample).st)
  {
    OnKeyPreservesInv(Frame(st, px), key, sample);
  }

  /** Two states that agree on the calibration session, the table and the
      file agree on them after any intent, and stop together. */
  lemma ApplySameSession(s1: State, s2: State, i: Intent, sample: Option<Hue>)
    requires s1.sampling == s2.sampling && s1.name == s2.name
    requires s1.table == s2.table && s1.saved == s2.saved
    ensures Apply(s1, i, sample).Stopped? <==> Apply(s2, i, sample).Stopped?
    ensures Apply(s1, i, sample).Running? ==>
      var a := Apply(s1, i, sample).st;
      var b := Apply(s2, i, sample).st;
      a.sampling == b.sampling && a.name == b.name && a.table == b.table && a.saved == b.saved
  {
    match i
    case CommitSample =>
      if s1.name != "" && sample.Some? {
        var t := Insert(s1.table, s1.name, Calibrated(sample.value));
        assert Apply(s1, i, sample) == Running(s1.(table := t, saved := Some(SaveProjection(t)), sampling := false));
        assert Apply(s2, i, sample) == Running(s2.(table := t, saved := Some(SaveProjection(t)), sampling := false));
      }
    case _ =>
  }

  /** A whole iteration affects the calibration session, the profiles and
      the file exactly as its key press alone does, and stops exactly when
      the key press alone stops the loop. */
  lemma TickAsKey(st: State, px: seq<nat>, key: KeyCode, sample: Option<Hue>)
    requires |px| == |st.table|
    ensures Tick(st, px, key, sample).Stopped? <==> OnKey(st, key, sample).Stopped?
    ensures Tick(st, px, key, sample).Running? ==>
      var a := Tick(st, px, key, sample).st;
      var b := OnKey(st, key, sample).st;
      a.sampling == b.sampling && a.name == b.name && a.table == b.table && a.saved == b.saved
  {
    var f := Frame(st, px);
    ApplySameSession(f, st, Decode(key, st.sampling), sample);
  }

  /** Space flips detection and restarts the streak; nothing else changes,
      whether or not a sample is in progress. */
  lemma ToggleKey(st: State, sample: Option<Hue>)
    ensures OnKey(st, Space, sample) == Running(st.(active := !st.active, filter := st.filter.(streak := 0)))
  {
  }

  /** Switching detection on always starts from a clean debounce: the
      frame before the key press was inactive, so the confirmed colour is
      empty, and the key resets the streak. */
  lemma ToggleOnStartsClean(st: State, px: seq<nat>, sample: Option<Hue>)
    requires !st.active && |px| == |st.table|
    ensures Tick(st, px, Space, sample).Running?
    ensures var r := Tick(st, px, Space, sample).st;
      r.active && r.filter.confirmed == "" && r.filter.streak == 0 && r.filter.last == st.filter.last
  {
  }

  /** `s` always restarts sampling with an empty name, even mid-sample. */
  lemma SampleKey(st: State, sample: Option<Hue>)
    ensures OnKey(st, LetterS, sample) == Running(st.(sampling := true, name := ""))
  {
  }

  /** `q` stops the loop exactly when no sample is in progress; while
      sampling it is typed. */
  lemma QuitKey(st: State, sample: Option<Hue>)
    ensures OnKey(st, LetterQ, sample).Stopped? <==> !st.sampling
    ensures st.sampling ==> OnKey(st, LetterQ, sample) == Running(st.(name := st.name + "q"))
  {
  }

  /** Enter with a typed name and a non-empty sample square stores the
      calibrated profile under that name, in place if the name exists and
      at the end otherwise, leaves every other profile alone, saves, and
      ends sampling. */
  lemma CommitNamed(st: State, hue: Hue)
    requires st.sampling && st.name != ""
    ensures OnKey(st, Enter, Some(hue)).Running?
    ensures var r := OnKey(st, Enter, Some(hue)).st;
      && !r.sampling
      && Lookup(r.table, st.name) == Some(Calibrated(hue))
      && (forall k :: k != st.name ==> Lookup(r.table, k) == Lookup(st.table, k))
      && Keys(r.table) == (if st.name in Keys(st.table) then Keys(st.table) else Keys(st.table) + [st.name])
      && r.saved == Some(SaveProjection(r.table))
      && r.active == st.active && r.filter == st.filter && r.name == st.name
  {
    InsertKeys(st.table, st.name, Calibrated(hue));
  }

  /** Enter with an empty name only ends sampling, whatever the sample. */
  lemma CommitEmpty(st: State, sample: Option<Hue>)
    requires st.sampling && st.name == ""
    ensures OnKey(st, Enter, sample) == Running(st.(sampling := false))
  {
  }

  /** Enter with an empty sample square only ends sampling: nothing is
      stored or saved, and the typed name stays until the next `s`. */
  lemma CommitEmptySample(st: State)
    requires st.sampling
    ensures OnKey(st, Enter, None) == Running(st.(sampling := false))
  {
  }

  /** Backspace drops the last character, and does nothing to an empty name. */
  lemma BackspaceKey(st: State, sample: Option<Hue>)
    requires st.sampling
    ensures OnKey(st, Backspace, sample).Running?
    ensures var r := OnKey(st, Backspace, sample).st;
      && r == st.(name := r.name)
      && (st.name == "" ==> r.name == "")
      && (st.name != "" ==> r.name + [st.name[|st.name| - 1]] == st.name)
  {
  }

  /** Escape ends sampling without touching the profiles. */
  lemma EscapeKey(st: State, sample: Option<Hue>)
    requires st.sampling
    ensures OnKey(st, Escape, sample) == Running(st.(sampling := false))
  {
  }

  /** Any other printable key is typed while sampling. */
  lemma PrintableKey(st: State, key: KeyCode, sample: Option<Hue>)
    requires st.sampling && Space < key <= LastPrintable && key != LetterS
    ensures OnKey(st, key, sample) == Running(st.(name := st.name + [key as char]))
  {
  }

  /** Every key without a role in the current mode changes nothing. */
  lemma OtherKeysIgnored(st: State, key: KeyCode, sample: Option<Hue>)
    requires !st.sampling ==> key != Space && key != LetterS && key != LetterQ
    requires st.sampling ==> key !in {Backspace, Enter, Escape} && (key < Space || key > LastPrintable)
    ensures OnKey(st, key, sample) == Running(st)
  {
  }

  /** The text that typing `keys` appends to the name. */
  function Typed(keys: seq<KeyCode>): string
  {
    seq(|keys|, i requires 0 <= i < |keys| => keys[i] as char)
  }

  predicate TypableKeys(keys: seq<KeyCode>)
  {
    forall i :: 0 <= i < |keys| ==> Space < keys[i] <= LastPrintable && keys[i] != LetterS
  }

  /** While sampling, typing only extends the name. */
  lemma {:induction false} TypingAppends(st: State, typed: seq<KeyCode>, rest: seq<KeyCode>, sample: Option<Hue>)
    requires st.sampling && TypableKeys(typed)
    ensures RunKeys(st, typed + rest, sample) == RunKeys(st.(name := st.name + Typed(typed)), rest, sample)
    decreases |typed|
  {
    if typed == [] {
      assert typed + rest == rest;
      assert st.name + Typed(typed) == st.name;
    } else {
      var c := typed[0] as char;
      var st1 := st.(name := st.name + [c]);
      assert (typed + rest)[0] == typed[0] && (typed + rest)[1..] == typed[1..] + rest;
      PrintableKey(st, typed[0], sample);
      TypingAppends(st1, typed[1..], rest, sample);
      assert Typed(typed) == [c] + Typed(typed[1..]);
      ConcatAssoc(st.name, [c], Typed(typed[1..]));
    }
  }

  /** Starting a sample, typing and cancelling leaves the profiles and the
      file as they were. */
  lemma CancelLeavesProfiles(st: State, typed: seq<KeyCode>, sample: Option<Hue>)
    requires TypableKeys(typed)
    ensures RunKeys(st, [LetterS] + typed + [Escape], sample).Running?
    ensures var r := RunKeys(st, [LetterS] + typed + [Escape], sample).st;
      r.table == st.table && r.saved == st.saved && !r.sampling
  {
    var keys := [LetterS] + typed + [Escape];
    var st1 := st.(sampling := true, name := "");
    assert keys[0] == LetterS && keys[1..] == typed + [Escape];
    TypingAppends(st1, typed, [Escape], sample);
  }

  /** Starting a sample, typing a name and pressing Enter over a non-empty
      sample square stores the calibrated profile under the typed name,
      saves, and ends sampling. */
  lemma TypeAndCommit(st: State, typed: seq<KeyCode>, hue: Hue)
    requires TypableKeys(typed) && typed != []
    ensures RunKeys(st, [LetterS] + typed + [Enter], Some(hue)).Running?
    ensures var r := RunKeys(st, [LetterS] + typed + [Enter], Some(hue)).st;
      && !r.sampling
      && Lookup(r.table, Typed(typed)) == Some(Calibrated(hue))
      && (forall k :: k != Typed(typed) ==> Lookup(r.table, k) == Lookup(st.table, k))
      && r.saved == Some(SaveProjection(r.table))
  {
    var keys := [LetterS] + typed + [Enter];
    var st1 := st.(sampling := true, name := "");
    assert keys[0] == LetterS && keys[1..] == typed + [Enter];
    assert RunKeys(st, keys, Some(hue)) == RunKeys(st1, typed + [Enter], Some(hue));
    TypingAppends(st1, typed, [Enter], Some(hue));
    assert "" + Typed(typed) == Typed(typed);
    var st2 := st1.(name := Typed(typed));
    assert st2.name != [] by {
      assert |st2.name| == |typed|;
    }
    CommitNamed(st2, hue);
    assert RunKeys(st2, [Enter], Some(hue)) == OnKey(st2, Enter, Some(hue));
  }

  /** The calibration walk-through of a sample of hue 50 named "Maroon". */
  lemma MaroonCalibration()
    ensures Calibrated(50) == Profile(Hsv(35, 50, 50), Hsv(65, 255, 255), Some(5))
    ensures Typed([77, 97, 114, 111, 111, 110]) == "Maroon"
  {
  }
}
