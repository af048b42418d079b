/**
 * The configuration file while loops that went Dormant record why. A loop
 * publishes Dormant before it calls MarkDormant, which reads the file, and
 * writes it back changed after truncating it; until it is done, whoever sees Dormant may write a
 * configuration of its own and ask for a re-boot.
 */
module ConfigMark {
  import opened Prelude
  import Runs

  const ACTIVE := "active"
  const DORMANT := "dormant"

  /** settings stands for the Vault section and everything else MarkDormant copies. */
  datatype Config = Config(state: string, reason: string, since: string, settings: string)

  /** Missing and unreadable files are replaced by a fresh configuration. */
  datatype File = Absent | Unreadable | Holds(config: Config)

  const FRESH := Config("", "", "", "")

  /** MarkDormant in one loop tail. */
  datatype Marker =
    | ToLoad(reason: string)
    | ToSave(base: Config, reason: string, now: string)
    | ToWrite(base: Config, reason: string, now: string)   // opened and truncated
    | Finished

  /** override is the RUNE_STATE environment variable, which Load puts in place of the state. */
  datatype Sys = Sys(file: File, override: Option<string>, markers: seq<Marker>)

  datatype Step =
    | Publish(reason: string)               // a loop publishes Dormant
    | Load(marker: nat, now: string)
    | Open(marker: nat, ok: bool)
    | Write(marker: nat, ok: bool)

  function Loaded(s: Sys): Config {
    var c := if s.file.Holds? then s.file.config else FRESH;
    if s.file.Holds? && s.override.Some? then c.(state := s.override.value) else c
  }

  predicate AlreadyMarked(c: Config, reason: string) {
    c.state == DORMANT && c.reason == reason
  }

  function Marked(c: Config, reason: string, now: string): Config {
    c.(state := DORMANT, reason := reason, since := now)
  }

  predicate Enabled(s: Sys, step: Step) {
    match step
    case Publish(_) => true
    case Load(m, _) => m < |s.markers| && s.markers[m].ToLoad?
    case Open(m, _) => m < |s.markers| && s.markers[m].ToSave?
    case Write(m, _) => m < |s.markers| && s.markers[m].ToWrite?
  }

  function Apply(s: Sys, step: Step): Sys
    requires Enabled(s, step)
  {
    match step
    case Publish(reason) => s.(markers := s.markers + [ToLoad(reason)])
    case Load(m, now) =>
      var reason := s.markers[m].reason;
      if AlreadyMarked(Loaded(s), reason) then s.(markers := s.markers[m := Finished])
      else s.(markers := s.markers[m := ToSave(Loaded(s), reason, now)])
    case Open(m, ok) =>
      var ToSave(base, reason, now) := s.markers[m];
      if ok then s.(file := Unreadable, markers := s.markers[m := ToWrite(base, reason, now)])
      else s.(markers := s.markers[m := Finished])
    case Write(m, ok) =>
      var ToWrite(base, reason, now) := s.markers[m];
      s.(file := if ok then Holds(Marked(base, reason, now)) else Unreadable, markers := s.markers[m := Finished])
  }

  /** A step of the loops that are dormant already. */
  ghost predicate GoesOn(s: Sys, s': Sys) {
    exists step :: Enabled(s, step) && !step.Publish? && s' == Apply(s, step)
  }

  /** What is in the file now stays there, however the loops that are dormant already go on. */
  ghost predicate Survives(s: Sys) {
    forall e | Runs.Reaches(s, e, GoesOn) :: e.file == s.file
  }

  predicate Harmless(s: Sys, m: Marker) {
    match m
    case Finished => true
    case ToLoad(reason) => AlreadyMarked(Loaded(s), reason)
    case _ => false
  }

  ghost predicate AllHarmless(s: Sys) {
    forall m | 0 <= m < |s.markers| :: Harmless(s, s.markers[m])
  }

  lemma HarmlessStep(s: Sys, step: Step)
    requires AllHarmless(s) && Enabled(s, step) && !step.Publish?
    ensures AllHarmless(Apply(s, step)) && Apply(s, step).file == s.file
  {
    var s' := Apply(s, step);
    assert Harmless(s, s.markers[step.marker]);
    assert s'.file == s.file;
    forall m | 0 <= m < |s'.markers| ensures Harmless(s', s'.markers[m]) {
      assert Harmless(s, s.markers[m]);
    }
  }

  lemma {:induction false} HarmlessPath(path: seq<Sys>, k: nat)
    requires Runs.IsPath(path, GoesOn) && AllHarmless(path[0]) && k < |path|
    ensures AllHarmless(path[k]) && path[k].file == path[0].file
  {
    if k > 0 {
      HarmlessPath(path, k - 1);
      assert GoesOn(path[k - 1], path[k]);
      var step :| Enabled(path[k - 1], step) && !step.Publish? && path[k] == Apply(path[k - 1], step);
      HarmlessStep(path[k - 1], step);
    }
  }

  lemma OneStep(s: Sys, e: Sys, step: Step)
    requires Runs.Reaches(s, e, GoesOn) && Enabled(e, step) && !step.Publish?
    ensures Runs.Reaches(s, Apply(e, step), GoesOn)
  {
    assert GoesOn(e, Apply(e, step));
    Runs.OneMore(s, e, Apply(e, step), GoesOn);
  }

  /** A marker that is not harmless has a way to change the file. */
  lemma HarmfulPath(s: Sys, m: nat) returns (e: Sys)
    requires m < |s.markers| && !Harmless(s, s.markers[m])
    ensures Runs.Reaches(s, e, GoesOn) && e.file != s.file
  {
    Runs.Here(s, GoesOn);
    e := s;
    if s.markers[m].ToLoad? {
      OneStep(s, e, Load(m, ""));
      e := Apply(e, Load(m, ""));
      assert e.markers[m] == ToSave(Loaded(s), s.markers[m].reason, "") && e.file == s.file;
    }
    if e.markers[m].ToSave? {
      OneStep(s, e, Open(m, true));
      e := Apply(e, Open(m, true));
    }
    if e.file == s.file || e.markers[m].ToWrite? {
      OneStep(s, e, Write(m, s.file == Unreadable));
      e := Apply(e, Write(m, s.file == Unreadable));
    }
  }

  /** What is in the file survives if and only if each loop that went Dormant is done with it or will find it as it wants it. */
  lemma SurvivesIff(s: Sys)
    ensures Survives(s) <==> AllHarmless(s)
  {
    if AllHarmless(s) {
      forall e | Runs.Reaches(s, e, GoesOn) ensures e.file == s.file {
        var path :| Runs.IsPath(path, GoesOn) && path[0] == s && path[|path| - 1] == e;
        HarmlessPath(path, |path| - 1);
      }
    } else {
      var m :| 0 <= m < |s.markers| && !Harmless(s, s.markers[m]);
      var e := HarmfulPath(s, m);
      assert e.file != s.file;
    }
  }

  /** The file holds a configuration that says dormant, by itself or by the override, for this very reason. */
  predicate SaysDormant(s: Sys, reason: string) {
    && s.file.Holds? && s.file.config.reason == reason
    && (if s.override.Some? then s.override.value == "dormant" else s.file.config.state == "dormant")
  }

  /**
   * MarkDormant that nobody interrupts: a file that says so already is left
   * alone; any other ends as dormant with the reason and the time, and with
   * the settings that were in it.
   */
  lemma MarkAlone(s: Sys, m: nat, now: string)
    requires m < |s.markers| && s.markers[m].ToLoad?
    ensures
      var reason := s.markers[m].reason;
      if SaysDormant(s, reason) then Apply(s, Load(m, now)) == s.(markers := s.markers[m := Finished])
      else
        var settings := if s.file.Holds? then s.file.config.settings else "";
        Apply(Apply(Apply(s, Load(m, now)), Open(m, true)), Write(m, true)) ==
        s.(file := Holds(Config("dormant", reason, now, settings)), markers := s.markers[m := Finished])
  {
    var s1 := Apply(s, Load(m, now));
    if !SaysDormant(s, s.markers[m].reason) {
      var s2 := Apply(s1, Open(m, true));
      assert Apply(s2, Write(m, true)).markers == s.markers[m := Finished];
    }
  }

  ghost predicate AllFinished(s: Sys) {
    forall m | 0 <= m < |s.markers| :: s.markers[m].Finished?
  }

  /**
   * A configuration that says active, written while the state is Dormant,
   * survives if and only if no loop still has to finish MarkDormant: a loop
   * that has yet to read it turns it dormant, and one that has read the file
   * before puts the old settings back as well.
   */
  lemma ActivationSurvivesIff(s: Sys, c: Config)
    requires s.override == None && c.state == ACTIVE
    ensures Survives(s.(file := Holds(c))) <==> AllFinished(s)
  {
    var s' := s.(file := Holds(c));
    SurvivesIff(s');
    assert ACTIVE[0] != DORMANT[0];
    assert forall m | 0 <= m < |s.markers| :: Harmless(s', s'.markers[m]) <==> s.markers[m].Finished?;
  }

  /**
   * The first boot finds no configuration and publishes Dormant; the user's
   * activation, written before MarkDormant reads the file, does not survive.
   */
  lemma EarlyActivationIsUndone(settings: string)
    ensures
      var dormant := Apply(Sys(Absent, None, []), Publish("not_configured"));
      !Survives(dormant.(file := Holds(Config(ACTIVE, "", "", settings))))
  {
    var dormant := Apply(Sys(Absent, None, []), Publish("not_configured"));
    ActivationSurvivesIff(dormant, Config(ACTIVE, "", "", settings));
    assert dormant.markers[0] == ToLoad("not_configured");
  }
}
