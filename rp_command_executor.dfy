/** RPCommandExecutor, the /rankpoint command: its two argument checks,
    the choice of what a command line does, and the point rule each
    sub-command applies to a player's record. */
module Commands {
  import opened Wrappers
  import opened JavaInt
  import Data

  // ---------------------------------------------------------------------
  // checkPlayerName: USERNAME_PATTERN = [a-zA-Z0-9_]{3,16}, matched against the whole name

  datatype CharRange = CharRange(lo: char, hi: char)

  /** A regular expression of the one shape USERNAME_PATTERN has: a
      character class repeated between min and max times. */
  datatype Pattern = Repeat(cls: seq<CharRange>, min: nat, max: nat)

  const USERNAME_PATTERN: Pattern :=
    Repeat([CharRange('a', 'z'), CharRange('A', 'Z'), CharRange('0', '9'), CharRange('_', '_')], 3, 16)

  predicate InClass(cls: seq<CharRange>, c: char) {
    exists k :: 0 <= k < |cls| && cls[k].lo <= c <= cls[k].hi
  }

  /** Matcher.matches() for p after count repetitions have been consumed. */
  function MatchesFrom(p: Pattern, s: string, count: nat): bool {
    if s == [] then p.min <= count
    else InClass(p.cls, s[0]) && count < p.max && MatchesFrom(p, s[1..], count + 1)
  }

  /** A whole-string match of p. */
  predicate Matches(p: Pattern, s: string) {
    MatchesFrom(p, s, 0)
  }

  /** The characters a Minecraft name may use. */
  predicate IsNameChar(c: char) {
    ('a' <= c <= 'z') || ('A' <= c <= 'Z') || ('0' <= c <= '9') || c == '_'
  }

  function CheckPlayerName(name: string): bool {
    Matches(USERNAME_PATTERN, name)
  }

  /** A repetition pattern matches the rest of the string exactly when the
      total count lies between its bounds and every character is in its class. */
  lemma {:induction false} MatchesFromExactly(p: Pattern, s: string, count: nat)
    requires count <= p.max
    ensures MatchesFrom(p, s, count) <==>
      p.min <= count + |s| <= p.max && forall k :: 0 <= k < |s| ==> InClass(p.cls, s[k])
  {
    if s != [] {
      if count < p.max {
        MatchesFromExactly(p, s[1..], count + 1);
        assert forall k :: 0 < k < |s| ==> s[k] == s[1..][k - 1];
      }
    }
  }

  /** checkPlayerName accepts exactly the names of 3 to 16 ASCII letters,
      digits and underscores. */
  lemma CheckPlayerNameExactly(name: string)
    ensures CheckPlayerName(name) <==> 3 <= |name| <= 16 && forall k :: 0 <= k < |name| ==> IsNameChar(name[k])
  {
    MatchesFromExactly(USERNAME_PATTERN, name, 0);
    forall c
      ensures InClass(USERNAME_PATTERN.cls, c) <==> IsNameChar(c)
    {
      if IsNameChar(c) {
        var cls := USERNAME_PATTERN.cls;
        if 'a' <= c <= 'z' {
          assert cls[0].lo <= c <= cls[0].hi;
        } else if 'A' <= c <= 'Z' {
          assert cls[1].lo <= c <= cls[1].hi;
        } else if '0' <= c <= '9' {
          assert cls[2].lo <= c <= cls[2].hi;
        } else {
          assert cls[3].lo <= c <= cls[3].hi;
        }
      }
    }
  }

  // ---------------------------------------------------------------------
  // isIntegerAndPositive

  /** Integer.parseInt(st) > 0, with the NumberFormatException read as false. */
  function IsIntegerAndPositive(st: string): (b: bool)
    ensures b <==> ParseInt(st).Some? && 0 < ParseInt(st).value
  {
    match ParseInt(st)
    case Some(i) => i > 0
    case None => false
  }

  /** The printed form of a number passes exactly when the number is a
      positive `int`: zero, negatives and anything above 2147483647 fail. */
  lemma PositiveNumeralsAccepted(n: int)
    ensures IsIntegerAndPositive(ToString(n)) <==> 0 < n <= MAX_VALUE
  {
    ParseIntOfToString(n);
  }

  /** Only a string that holds a digit can pass. */
  lemma {:induction false} AcceptedHasDigits(st: string)
    requires IsIntegerAndPositive(st)
    ensures 0 < |st| && IsDigit(st[|st| - 1])
    ensures forall k :: 0 < k < |st| ==> IsDigit(st[k])
  {
    var digits := if st[0] == '-' || st[0] == '+' then st[1..] else st;
    assert AllDigits(digits);
    if st[0] == '-' || st[0] == '+' {
      assert forall k :: 0 < k < |st| ==> st[k] == digits[k - 1];
    }
  }

  // ---------------------------------------------------------------------
  // onCommand

  /** The fixed messages onCommand itself sends: Message keys command.help.*,
      command.donthaveperm, and the command.giveall broadcast. */
  datatype Reply =
    | HelpMe | HelpLook | HelpGive | HelpGiveAll | HelpTake | HelpSet | HelpReset | HelpReload
    | DontHavePerm
    | GiveAllBroadcast(amount: Int32)

  /** The work a command line hands to loadAndRun: none, one of the two
      read-only lookups, or a change to one or all players' points. */
  datatype Action =
    | NoAction
    | ShowOwnPoint
    | Look(name: string)
    | Give(name: string, amount: Int32)
    | GiveAll(amount: Int32)
    | Take(name: string, amount: Int32)
    | Set(name: string, amount: Int32)
    | Reset(name: string)

  predicate Mutates(a: Action) {
    a.Give? || a.GiveAll? || a.Take? || a.Set? || a.Reset?
  }

  datatype Outcome = Outcome(action: Action, replies: seq<Reply>, returned: bool)

  /** A `name amount` pair that give, take and set accept. */
  predicate TargetAndAmount(args: seq<string>) {
    |args| == 3 && CheckPlayerName(args[1]) && IsIntegerAndPositive(args[2])
  }

  /** onCommand's switch on args[0]; isPlayer is `sender instanceof Player`
      and hasPerm is `sender.hasPermission("rankpoint.admin")`. */
  function OnCommand(args: seq<string>, isPlayer: bool, hasPerm: bool): (r: Outcome)
    ensures r.returned
    ensures Mutates(r.action) ==> hasPerm
    ensures r.action.ShowOwnPoint? <==> |args| >= 1 && args[0] == "me" && isPlayer
    ensures r.action.Look? <==> |args| == 2 && args[0] == "look" && CheckPlayerName(args[1])
    ensures r.action.Give? <==> hasPerm && TargetAndAmount(args) && args[0] == "give"
    ensures r.action.Take? <==> hasPerm && TargetAndAmount(args) && args[0] == "take"
    ensures r.action.Set? <==> hasPerm && TargetAndAmount(args) && args[0] == "set"
    ensures r.action.Reset? <==> hasPerm && |args| == 2 && args[0] == "reset" && CheckPlayerName(args[1])
    ensures r.action.GiveAll? <==> hasPerm && |args| == 2 && args[0] == "giveall" && IsIntegerAndPositive(args[1])
    ensures r.action.Give? || r.action.Take? || r.action.Set? ==>
      r.action.name == args[1] && r.action.amount == ParseInt(args[2]).value && 0 < r.action.amount
    ensures r.action.GiveAll? ==> r.action.amount == ParseInt(args[1]).value && 0 < r.action.amount && r.replies == [GiveAllBroadcast(r.action.amount)]
    ensures r.action.Look? || r.action.Reset? ==> r.action.name == args[1]
    ensures Mutates(r.action) && !r.action.GiveAll? ==> r.replies == []
    ensures DontHavePerm in r.replies ==> !hasPerm
  {
    if |args| == 0 then Outcome(NoAction, [], true)
    else
      match args[0]
      case "me" =>
        Outcome(if isPlayer then ShowOwnPoint else NoAction, [], true)
      case "look" =>
        if |args| == 2 && CheckPlayerName(args[1]) then Outcome(Look(args[1]), [], true)
        else Outcome(NoAction, [HelpLook], true)
      case "give" =>
        if !hasPerm then Outcome(NoAction, [DontHavePerm], true)
        else if TargetAndAmount(args) then Outcome(Give(args[1], ParseInt(args[2]).value), [], true)
        else Outcome(NoAction, [HelpGive], true)
      case "giveall" =>
        if !hasPerm then Outcome(NoAction, [DontHavePerm], true)
        else if |args| == 2 && IsIntegerAndPositive(args[1]) then
          var point := ParseInt(args[1]).value;
          Outcome(GiveAll(point), [GiveAllBroadcast(point)], true)
        else Outcome(NoAction, [HelpGiveAll], true)
      case "take" =>
        if !hasPerm then Outcome(NoAction, [DontHavePerm], true)
        else if TargetAndAmount(args) then Outcome(Take(args[1], ParseInt(args[2]).value), [], true)
        else Outcome(NoAction, [HelpTake], true)
      case "set" =>
        if !hasPerm then Outcome(NoAction, [DontHavePerm], true)
        else if TargetAndAmount(args) then Outcome(Set(args[1], ParseInt(args[2]).value), [], true)
        else Outcome(NoAction, [HelpSet], true)
      case "reset" =>
        if !hasPerm then Outcome(NoAction, [DontHavePerm], true)
        else if |args| == 2 && CheckPlayerName(args[1]) then Outcome(Reset(args[1]), [], true)
        else Outcome(NoAction, [HelpReset], true)
      case "reload" =>
        Outcome(NoAction, if hasPerm then [] else [DontHavePerm], true)
      case _ =>
        var help := [HelpMe, HelpLook];
        var adminHelp := [HelpGive, HelpGiveAll, HelpTake, HelpSet, HelpReset, HelpReload];
        Outcome(NoAction, if hasPerm then help + adminHelp else help, true)
  }

  // ---------------------------------------------------------------------
  // What each sub-command's lambda does to a balance

  /** take's lambda: below zero it sets 0, otherwise removePoint. The test
      `data.getPoint() - point < 0` is wrapping `int` subtraction. */
  function TakeChange(cur: Int32, n: Int32): (r: Data.Change)
    ensures r.Changed? ==> 0 <= r.point
  {
    if Wrap(cur - n) < 0 then Data.SetPointChange(cur, 0) else Data.RemovePointChange(cur, n)
  }

  /** The change a targeted or global action makes to one balance. */
  function ActionChange(a: Action, cur: Int32): (r: Data.Change)
    requires Mutates(a)
    ensures 0 <= cur && r.Changed? ==> 0 <= r.point
  {
    match a
    case Give(_, n) => Data.AddPointChange(cur, n)
    case GiveAll(n) => Data.AddPointChange(cur, n)
    case Take(_, n) => TakeChange(cur, n)
    case Set(_, n) => Data.SetPointChange(cur, n)
    case Reset(_) => Data.SetPointChange(cur, 0)
  }

  /** take never throws: from a non-negative balance it leaves max(p - n, 0). */
  lemma TakeClamps(cur: Int32, n: Int32)
    requires 0 <= cur && 0 < n
    ensures TakeChange(cur, n) == Data.Changed(if cur - n < 0 then 0 else cur - n)
  {
  }

  /** Every change onCommand can order succeeds on a non-negative balance
      and leaves it non-negative; set and reset overwrite it. */
  lemma {:induction false} CommandChangesSucceed(args: seq<string>, isPlayer: bool, hasPerm: bool, cur: Int32)
    requires 0 <= cur
    requires Mutates(OnCommand(args, isPlayer, hasPerm).action)
    ensures var a := OnCommand(args, isPlayer, hasPerm).action;
      && ActionChange(a, cur).Changed?
      && 0 <= ActionChange(a, cur).point
      && (a.Set? ==> ActionChange(a, cur).point == a.amount)
      && (a.Reset? ==> ActionChange(a, cur).point == 0)
      && (a.Take? ==> ActionChange(a, cur).point == if cur - a.amount < 0 then 0 else cur - a.amount)
      && (a.Give? || a.GiveAll? ==> ActionChange(a, cur).point == if InRange(cur + a.amount) then cur + a.amount else cur)
  {
    var a := OnCommand(args, isPlayer, hasPerm).action;
    if a.Take? {
      TakeClamps(cur, a.amount);
    }
  }

  // ---------------------------------------------------------------------
  // Running the lambdas on the loaded records

  /** The body of a give, take, set or reset lambda on the target's record. */
  method ApplyToData(a: Action, data: Data.PlayerData, env: Data.RankEnv) returns (status: Data.Status)
    requires Mutates(a) && !a.GiveAll?
    modifies data
    ensures status == Data.IllegalArgument <==> ActionChange(a, old(data.point)).Rejected?
    ensures status == Data.IllegalArgument ==> unchanged(data)
    ensures status == Data.Done ==> data.point == ActionChange(a, old(data.point)).point && data.isChanged
    ensures status == Data.Done ==>
      (data.Derived(env) && data.rankUpdates == old(data.rankUpdates) + Data.RankHook(old(data.group), data.group, env.isOnline(data.uuid)))
  {
    match a
    case Give(_, point) =>
      status := data.AddPoint(point, env);
    case Take(_, point) =>
      if Wrap(data.point - point) < 0 {
        status := data.SetPoint(0, env);
      } else {
        status := data.RemovePoint(point, env);
      }
    case Set(_, point) =>
      status := data.SetPoint(point, env);
    case Reset(_) =>
      status := data.SetPoint(0, env);
  }

  /** giveall: addPoint(point) on every online player's record, once each;
      every record re-derives its rank and announces a promotion. */
  method GiveAllOnline(point: Int32, online: seq<Data.PlayerData>, env: Data.RankEnv)
    requires 0 < point
    requires forall i, j :: 0 <= i < j < |online| ==> online[i] != online[j]
    modifies set k | 0 <= k < |online| :: online[k]
    ensures forall k :: 0 <= k < |online| ==>
      online[k].point == Data.AddPointChange(old(online[k].point), point).point && online[k].isChanged
    ensures forall k :: 0 <= k < |online| ==>
      (online[k].Derived(env) && online[k].rankUpdates ==
        old(online[k].rankUpdates) + Data.RankHook(old(online[k].group), online[k].group, env.isOnline(online[k].uuid)))
  {
    for i := 0 to |online|
      invariant forall k :: 0 <= k < i ==>
        online[k].point == Data.AddPointChange(old(online[k].point), point).point && online[k].isChanged
      invariant forall k :: 0 <= k < i ==>
        (online[k].Derived(env) && online[k].rankUpdates ==
          old(online[k].rankUpdates) + Data.RankHook(old(online[k].group), online[k].group, env.isOnline(online[k].uuid)))
      invariant forall k :: i <= k < |online| ==> unchanged(online[k])
    {
      var status := online[i].AddPoint(point, env);
    }
  }
}
