/** The player's two commands: a click that destroys a debris and a key press
    that destroys a spaceship (the 'click' and 'keydown' listeners of game-logic.js).
    Both scan the targets from the most recently spawned backwards and strike the
    first one that matches. */
module Commands {
  import opened Geometry
  import opened Targets

  datatype Option<T> = None | Some(value: T)

  /** An attack: a click at a field point, or a key naming a spaceship letter. */
  datatype Attack = Click(px: real, py: real) | Key(name: string)

  /** True when the attack destroys the target: a click lands strictly inside a
      debris' click radius; a key equals a spaceship's letter. */
  predicate Strikes(a: Attack, t: Target)
  {
    match a
    case Click(px, py) => t.Debris? && Within(t.x - px, t.y - py, t.clickRadius)
    case Key(k) => t.Spaceship? && t.letter == k
  }

  /** A click strikes a debris exactly when its true distance d from the click
      point is below the debris' click radius. */
  lemma ClickStrikesIffCloserThan(t: Target, px: real, py: real, d: real)
    requires t.Debris? && 0.0 <= d && d * d == NormSq(t.x - px, t.y - py)
    ensures Strikes(Click(px, py), t) <==> d < t.clickRadius
  {
    WithinIsDistanceBelow(t.x - px, t.y - py, t.clickRadius, d);
  }

  /** Points for a destroyed target: 10 for a debris, 20 for a spaceship. */
  function Reward(a: Attack): int
  {
    match a
    case Click(_, _) => 10
    case Key(_) => 20
  }

  /** The highest index whose target the attack strikes, if any. */
  function LastStruck(s: seq<Target>, a: Attack): (r: Option<nat>)
    ensures r.Some? ==> r.value < |s| && Strikes(a, s[r.value])
    ensures r.Some? ==> forall j :: r.value < j < |s| ==> !Strikes(a, s[j])
    ensures r.None? <==> forall j :: 0 <= j < |s| ==> !Strikes(a, s[j])
  {
    if |s| == 0 then None
    else if Strikes(a, s[|s| - 1]) then Some(|s| - 1)
    else LastStruck(s[..|s| - 1], a)
  }

  /** `splice(i, 1)`: the sequence without its i-th element, the others in order. */
  function RemoveAt(s: seq<Target>, i: nat): (r: seq<Target>)
    requires i < |s|
    ensures |r| == |s| - 1
    ensures forall j :: 0 <= j < i ==> r[j] == s[j]
    ensures forall j :: i <= j < |r| ==> r[j] == s[j + 1]
    ensures multiset(r) + multiset{s[i]} == multiset(s)
  {
    assert s == s[..i] + [s[i]] + s[i + 1..];
    s[..i] + s[i + 1..]
  }

  /** `toUpperCase` of one character.  Besides the ASCII letters, U+017F (long s)
      is the one character whose upper case is among W, A, S, D. */
  function UpperChar(c: char): char
  {
    if 'a' <= c <= 'z' then (c as int - 32) as char
    else if c == '\U{017F}' then 'S'
    else c
  }

  /** `toUpperCase` of a key name, character by character. */
  function UpperCase(s: string): (r: string)
    ensures |r| == |s|
    ensures forall i :: 0 <= i < |s| ==> r[i] == UpperChar(s[i])
  {
    if s == [] then [] else [UpperChar(s[0])] + UpperCase(s[1..])
  }

  /** The spaceship letter a key press commands, if its upper case is W, A, S or D. */
  function KeyCommand(key: string): (r: Option<string>)
    ensures r.Some? ==> r.value in Letters
    ensures forall c :: c in Letters ==> (r == Some(c) <==> UpperCase(key) == c)
  {
    var k := UpperCase(key);
    if k in Letters then Some(k) else None
  }

  /** Upper-casing twice is upper-casing once. */
  lemma {:induction false} UpperCaseIdempotent(s: string)
    ensures UpperCase(UpperCase(s)) == UpperCase(s)
  {
    var u := UpperCase(s);
    var uu := UpperCase(u);
    forall i | 0 <= i < |s| ensures uu[i] == u[i] {
      assert UpperChar(UpperChar(s[i])) == UpperChar(s[i]);
    }
  }

  /** A key and its upper-case form command the same thing: 'w' acts as 'W'. */
  lemma KeyCommandIgnoresCase(key: string)
    ensures KeyCommand(UpperCase(key)) == KeyCommand(key)
  {
    UpperCaseIdempotent(key);
  }

  /** Exactly nine key names command a spaceship: w, a, s, d in either case, and
      the long s, which upper-cases to S. */
  lemma KeyCommandAccepts(key: string)
    ensures KeyCommand(key).Some? <==> key in ["W", "A", "S", "D", "w", "a", "s", "d", "\U{017F}"]
  {
    if |key| == 1 {
      var c := key[0];
      assert key == [c];
      assert UpperCase(key) == [UpperChar(c)];
      assert [UpperChar(c)] in Letters <==> UpperChar(c) in "WASD";
    } else {
      assert |UpperCase(key)| != 1;
    }
  }
}
