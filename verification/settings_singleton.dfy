/** The singleton of Main.java: one lazily created `Settings` object holding a theme,
    with a default theme and a plain get/set pair.

    The Java static field is modelled as an explicit state value threaded through every
    call: `StaticState(None)` before the first access, `StaticState(Some(obj))` after. */
module SettingsSingleton {
  import opened Wrappers

  /** The theme a freshly created instance starts with. */
  const DefaultTheme: string := "Default"

  /** The single `Settings` object; its one private field is the theme. */
  datatype Settings = Settings(theme: string)

  /** The static `instance` field: absent until the first `getInstance`. */
  datatype StaticState = StaticState(instance: Option<Settings>)

  /** The state of a fresh process, before anything has asked for the instance. */
  const Unloaded: StaticState := StaticState(None)

  /** What `getInstance` leaves behind and hands back. */
  datatype Access = Access(after: StaticState, obj: Settings)

  /** `getInstance`: the first call creates the instance with the default theme; every
      later call hands back that same instance and leaves the state alone. */
  function GetInstance(s: StaticState): (r: Access)
    ensures r.after.instance == Some(r.obj)
    ensures s.instance.None? ==> r.obj.theme == DefaultTheme
    ensures s.instance.Some? ==> r.after == s && r.obj == s.instance.value
  {
    match s.instance
    case None =>
      var created := Settings(DefaultTheme);
      Access(StaticState(Some(created)), created)
    case Some(obj) => Access(s, obj)
  }

  /** `getTheme` on the instance. The only way to reach the instance is `getInstance`,
      so a caller always holds one. A plain load: it reads what a reader of the state
      sees, and storing the value just read back changes nothing. */
  function GetTheme(s: StaticState): (t: string)
    requires s.instance.Some?
    ensures t == CurrentTheme(s)
    ensures SetTheme(s, t) == s
  {
    s.instance.value.theme
  }

  /** `setTheme` on the instance: a plain store with no validation; reading back gives
      exactly the value stored, and the instance stays in place. */
  function SetTheme(s: StaticState, theme: string): (r: StaticState)
    requires s.instance.Some?
    ensures r.instance.Some? && CurrentTheme(r) == theme
  {
    StaticState(Some(s.instance.value.(theme := theme)))
  }

  /** The get/set pair is a store and a load: `getTheme` after `setTheme(t)` returns `t`,
      and a second `setTheme` overrides the first. */
  lemma SetThenGetTheme(s: StaticState, first: string, second: string)
    requires s.instance.Some?
    ensures GetTheme(SetTheme(s, first)) == first
    ensures SetTheme(SetTheme(s, first), second) == SetTheme(s, second)
  {
  }

  /** Once created, the instance is never recreated: asking for it again after a
      `setTheme` returns the theme that was set, not the default. */
  lemma GetInstanceNeverResets(s: StaticState, theme: string)
    ensures var s1 := GetInstance(s).after;
            GetInstance(SetTheme(s1, theme)).obj.theme == theme
  {
  }

  /** A client call that reaches the instance through `getInstance` each time:
      `Settings.getInstance().getTheme()` or `Settings.getInstance().setTheme(t)`.
      Calling through a reference obtained earlier is the same, since `getInstance`
      never replaces the instance once it exists. */
  datatype Call = ReadTheme | WriteTheme(theme: string)

  /** One client call's effect: the state afterwards and the theme read, if any. */
  datatype Reply = Reply(after: StaticState, read: Option<string>)

  /** A run of client calls: the state afterwards and what each call read, in call order. */
  datatype Session = Session(after: StaticState, answers: seq<Option<string>>)

  /** One client call: the state afterwards, and the theme read (`None` for a write).
      A read sees the current theme (the default on a fresh process) and changes
      nothing beyond creating the instance; a write makes its theme the current one. */
  function Apply(s: StaticState, c: Call): (r: Reply)
    ensures r.after.instance.Some?
    ensures r.read.Some? <==> c.ReadTheme?
    ensures c.ReadTheme? ==> r.read == Some(CurrentTheme(s)) && CurrentTheme(r.after) == CurrentTheme(s)
    ensures c.ReadTheme? && s.instance.Some? ==> r.after == s
    ensures c.WriteTheme? ==> CurrentTheme(r.after) == c.theme
  {
    var s1 := GetInstance(s).after;
    match c
    case ReadTheme => Reply(s1, Some(GetTheme(s1)))
    case WriteTheme(t) => Reply(SetTheme(s1, t), None)
  }

  /** A sequence of client calls, in order: the final state and what each call read.
      There is one answer per call, and the instance exists afterwards as soon as any
      call has been made. */
  function Exec(s: StaticState, calls: seq<Call>): (r: Session)
    ensures |r.answers| == |calls|
    ensures s.instance.Some? || |calls| > 0 ==> r.after.instance.Some?
    decreases |calls|
  {
    if |calls| == 0 then
      Session(s, [])
    else
      var first := Apply(s, calls[0]);
      var rest := Exec(first.after, calls[1..]);
      Session(rest.after, [first.read] + rest.answers)
  }

  /** The theme a reader sees in state `s`: the instance's, or the default one that
      `getInstance` would create. */
  function CurrentTheme(s: StaticState): string {
    match s.instance
    case Some(obj) => obj.theme
    case None => DefaultTheme
  }

  /** The reference for what a reader should see after `calls`, stated from the most
      recent call backwards: the last theme written, or `initial` if nothing was written. */
  function LatestTheme(initial: string, calls: seq<Call>): string
    decreases |calls|
  {
    if |calls| == 0 then initial
    else
      match calls[|calls| - 1]
      case WriteTheme(t) => t
      case ReadTheme => LatestTheme(initial, calls[..|calls| - 1])
  }

  /** Peeling the first call off the reference. */
  lemma {:induction false} LatestThemeCons(initial: string, c: Call, rest: seq<Call>)
    ensures LatestTheme(initial, [c] + rest) == LatestTheme(LatestTheme(initial, [c]), rest)
    decreases |rest|
  {
    if |rest| > 0 {
      var all := [c] + rest;
      assert all[..|all| - 1] == [c] + rest[..|rest| - 1];
      assert all[|all| - 1] == rest[|rest| - 1];
      LatestThemeCons(initial, c, rest[..|rest| - 1]);
    } else {
      assert [c] + rest == [c];
    }
  }

  /** Every read returns the theme most recently written before it, or the default theme
      on a fresh process (or the existing theme) when nothing was written; writes return
      nothing; and the final state holds the last theme written. */
  lemma {:induction false} ExecReadsLatestWrite(s: StaticState, calls: seq<Call>)
    ensures forall j :: 0 <= j < |calls| && calls[j].ReadTheme? ==>
              Exec(s, calls).answers[j] == Some(LatestTheme(CurrentTheme(s), calls[..j]))
    ensures forall j :: 0 <= j < |calls| && calls[j].WriteTheme? ==> Exec(s, calls).answers[j] == None
    ensures CurrentTheme(Exec(s, calls).after) == LatestTheme(CurrentTheme(s), calls)
    decreases |calls|
  {
    if |calls| > 0 {
      var s1 := Apply(s, calls[0]).after;
      var rest := calls[1..];
      ExecReadsLatestWrite(s1, rest);
      assert [calls[0]] + rest == calls;
      assert CurrentTheme(s1) == LatestTheme(CurrentTheme(s), [calls[0]]);
      forall j | 0 < j < |calls|
        ensures LatestTheme(CurrentTheme(s), calls[..j]) == LatestTheme(CurrentTheme(s1), rest[..j - 1])
      {
        assert calls[..j] == [calls[0]] + rest[..j - 1];
        LatestThemeCons(CurrentTheme(s), calls[0], rest[..j - 1]);
      }
      LatestThemeCons(CurrentTheme(s), calls[0], rest);
      assert calls[..0] == [];
    }
  }

  /** The first thing `main` does: on a fresh process `getInstance().getTheme()` reads
      "Default". */
  lemma FreshProcessReadsDefault()
    ensures Exec(Unloaded, [ReadTheme]).answers == [Some("Default")]
  {
  }

  /** Reading twice with no write in between returns the same theme both times. */
  lemma ReadIsStable(s: StaticState)
    ensures Exec(s, [ReadTheme, ReadTheme]).answers[0] == Exec(s, [ReadTheme, ReadTheme]).answers[1]
  {
    ExecReadsLatestWrite(s, [ReadTheme, ReadTheme]);
    assert [ReadTheme, ReadTheme][..1] == [ReadTheme];
    assert [ReadTheme, ReadTheme][..0] == [];
  }
}
