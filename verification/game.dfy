/** The game context: experience points, the level ladder, the streak and
    the roast-mode switch, with their browser-storage copies.

    Storage is a map from key to text. A JavaScript number is an integer
    or `NaN`; `parseInt` is a parameter: the model does not fix how text
    parses, only that it gives one of these. */
module Game {
  import opened Strings

  const XpKey: string := "soteria_xp"
  const StreakKey: string := "soteria_streak"
  const RoastKey: string := "soteria_roast"

  type Storage = map<string, string>

  datatype Level = Novice | Apprentice | Practitioner | Architect | Grandmaster

  /** A JavaScript number as the context holds it: an integer, or the
      `NaN` that `parseInt` gives for text without leading digits. */
  datatype Num = Int(value: int) | NaN

  datatype GameState = GameState(xp: Num, streak: Num, roastMode: bool)

  datatype Effect = Effect(game: GameState, store: Storage)

  /** The experience needed for each level above Novice, in order. */
  const Thresholds: seq<int> := [100, 500, 2000, 5000]

  /** A level's position on the ladder. */
  function Rank(l: Level): nat {
    match l
    case Novice => 0
    case Apprentice => 1
    case Practitioner => 2
    case Architect => 3
    case Grandmaster => 4
  }

  /** How many thresholds `xp` has reached. */
  function Reached(ts: seq<int>, xp: int): (n: nat)
    ensures n <= |ts|
  {
    if |ts| == 0 then 0 else (if ts[0] <= xp then 1 else 0) + Reached(ts[1..], xp)
  }

  /** The level of an experience total: its rank is the number of
      thresholds reached. Every comparison with `NaN` is false, so `NaN`
      falls through the whole ladder to the top. */
  function LevelOf(n: Num): (l: Level)
    ensures n.Int? ==> Rank(l) == Reached(Thresholds, n.value)
    ensures n.NaN? ==> l == Grandmaster
  {
    if n.NaN? then Grandmaster
    else
      var xp := n.value;
      assert Thresholds[1..] == [500, 2000, 5000] && [500, 2000, 5000][1..] == [2000, 5000];
      assert [2000, 5000][1..] == [5000] && [5000][1..] == [];
      assert Reached([5000], xp) == if 5000 <= xp then 1 else 0;
      assert Reached([2000, 5000], xp) == (if 2000 <= xp then 1 else 0) + Reached([5000], xp);
      assert Reached([500, 2000, 5000], xp) == (if 500 <= xp then 1 else 0) + Reached([2000, 5000], xp);
      if xp < 100 then Novice
      else if xp < 500 then Apprentice
      else if xp < 2000 then Practitioner
      else if xp < 5000 then Architect
      else Grandmaster
  }

  lemma {:induction false} ReachedMonotone(ts: seq<int>, a: int, b: int)
    requires a <= b
    ensures Reached(ts, a) <= Reached(ts, b)
  {
    if |ts| > 0 {
      ReachedMonotone(ts[1..], a, b);
    }
  }

  /** More experience never means a lower level. */
  lemma LevelMonotone(a: int, b: int)
    requires a <= b
    ensures Rank(LevelOf(Int(a))) <= Rank(LevelOf(Int(b)))
  {
    ReachedMonotone(Thresholds, a, b);
  }

  /** The state before storage is read. */
  const Default: GameState := GameState(Int(0), Int(1), false)

  /** `localStorage.getItem(key)` as a truthy string: present and not
      empty. */
  predicate Saved(store: Storage, key: string) {
    key in store && store[key] != ""
  }

  /** The state after the mount effect: each stored value overrides its
      default only when present and non-empty; roast mode is on iff the
      stored text is exactly `true`. */
  function Load(store: Storage, parseInt: string -> Num): (g: GameState)
    ensures !Saved(store, XpKey) ==> g.xp == Default.xp
    ensures !Saved(store, StreakKey) ==> g.streak == Default.streak
    ensures !Saved(store, RoastKey) ==> g.roastMode == Default.roastMode
    ensures Saved(store, XpKey) ==> g.xp == parseInt(store[XpKey])
    ensures Saved(store, StreakKey) ==> g.streak == parseInt(store[StreakKey])
    ensures Saved(store, RoastKey) ==> (g.roastMode <==> store[RoastKey] == "true")
  {
    GameState(
      if Saved(store, XpKey) then parseInt(store[XpKey]) else Default.xp,
      if Saved(store, StreakKey) then parseInt(store[StreakKey]) else Default.streak,
      Saved(store, RoastKey) && store[RoastKey] == "true")
  }

  /** `Number.prototype.toString` on an integer. */
  function IntToString(n: int): (r: string)
    ensures |r| >= 1
    ensures r[0] == '-' <==> n < 0
  {
    if n < 0 then "-" + NatToString(-n) else NatToString(n)
  }

  lemma IntToStringInjective(a: int, b: int)
    requires IntToString(a) == IntToString(b)
    ensures a == b
  {
    if a < 0 {
      assert "-" + NatToString(-a) == "-" + NatToString(-b);
      PrefixedNumberInjective("-", -a, -b);
    } else {
      NatToStringInjective(a, b);
    }
  }

  /** `n + amount`: `NaN` stays `NaN`. */
  function Add(n: Num, amount: int): (r: Num)
    ensures n.Int? <==> r.Int?
    ensures n.Int? ==> r.value == n.value + amount
  {
    match n
    case Int(v) => Int(v + amount)
    case NaN => NaN
  }

  /** `Number.prototype.toString` on a number of the model. */
  function NumText(n: Num): (r: string)
    ensures n.NaN? <==> r == "NaN"
  {
    match n
    case Int(v) => IntToString(v)
    case NaN => "NaN"
  }

  /** `addXp`: the total grows by the amount and is written back. */
  function AddXp(g: GameState, store: Storage, amount: int): (r: Effect)
    ensures g.xp.Int? ==> r.game.xp == Int(g.xp.value + amount)
    ensures g.xp.NaN? ==> r.game.xp == NaN
    ensures r.game.streak == g.streak && r.game.roastMode == g.roastMode
    ensures XpKey in r.store && r.store[XpKey] == NumText(r.game.xp)
    ensures forall k | k in store && k != XpKey :: k in r.store && r.store[k] == store[k]
  {
    var xp := Add(g.xp, amount);
    Effect(g.(xp := xp), store[XpKey := NumText(xp)])
  }

  /** A corrupted stored total parses to `NaN`, which shows as the top
      level and is never repaired by earning experience. */
  lemma CorruptedXpStaysGrandmaster(store: Storage, parseInt: string -> Num, amount: int)
    requires Saved(store, XpKey) && parseInt(store[XpKey]).NaN?
    ensures var g := Load(store, parseInt);
      && LevelOf(g.xp) == Grandmaster
      && LevelOf(AddXp(g, store, amount).game.xp) == Grandmaster
  {
  }

  function BoolText(b: bool): string {
    if b then "true" else "false"
  }

  /** `toggleRoastMode`: the switch flips and is written back. */
  function ToggleRoastMode(g: GameState, store: Storage): (r: Effect)
    ensures r.game.roastMode == !g.roastMode
    ensures r.game.xp == g.xp && r.game.streak == g.streak
    ensures RoastKey in r.store
    ensures forall k | k in store && k != RoastKey :: k in r.store && r.store[k] == store[k]
  {
    Effect(g.(roastMode := !g.roastMode), store[RoastKey := BoolText(!g.roastMode)])
  }

  /** Toggling twice restores the switch. */
  lemma ToggleTwice(g: GameState, store: Storage)
    ensures var once := ToggleRoastMode(g, store);
      ToggleRoastMode(once.game, once.store).game == g
  {
  }

  /** What a toggle writes is what the next page load reads back. */
  lemma ToggleSurvivesReload(g: GameState, store: Storage, parseInt: string -> Num)
    ensures var r := ToggleRoastMode(g, store);
      Load(r.store, parseInt).roastMode == r.game.roastMode
  {
    var r := ToggleRoastMode(g, store);
    assert r.store[RoastKey] == BoolText(!g.roastMode);
    assert "false" != "true";
  }

  /** With a `parseInt` that reads back what `toString` writes (and `NaN`
      from `"NaN"`), the total after `addXp` survives a reload. */
  lemma AddXpSurvivesReload(g: GameState, store: Storage, amount: int, parseInt: string -> Num)
    requires forall n: int :: parseInt(IntToString(n)) == Int(n)
    requires parseInt("NaN") == NaN
    ensures var r := AddXp(g, store, amount);
      Load(r.store, parseInt).xp == r.game.xp
  {
    var r := AddXp(g, store, amount);
    assert r.store[XpKey] == NumText(r.game.xp);
    if r.game.xp.Int? {
      assert IntToString(r.game.xp.value) != "";
    }
  }
}
