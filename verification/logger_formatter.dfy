/** The logger formatter base: the name of a log level, and PSR-3 style
    interpolation of `{key}` placeholders from a context array. */
module LoggerFormatter {
  import opened Wrappers
  import opened Php
  import Text

  /** The logger's level constants. */
  const EMERGENCY := 0
  const CRITICAL := 1
  const ALERT := 2
  const ERROR := 3
  const WARNING := 4
  const NOTICE := 5
  const INFO := 6
  const DEBUG := 7
  const CUSTOM := 8
  const SPECIAL := 9

  /** The `switch` arms, in source order. */
  const Arms: seq<(int, string)> := [
    (DEBUG, "DEBUG"), (ERROR, "ERROR"), (WARNING, "WARNING"), (CRITICAL, "CRITICAL"),
    (CUSTOM, "CUSTOM"), (ALERT, "ALERT"), (NOTICE, "NOTICE"), (INFO, "INFO"),
    (EMERGENCY, "EMERGENCY"), (SPECIAL, "SPECIAL")]

  /** `switch` compares with `==`: an integer by value, a boolean by
      truthiness, null as 0, and a string when it is the integer's
      canonical decimal spelling. */
  predicate LooselyEquals(v: Value, n: int) {
    match v
    case Int(m) => m == n
    case Bool(b) => b == (n != 0)
    case Null => n == 0
    case Str(s) => s == IntToString(n)
    case _ => false
  }

  /** The first of `arms` from `from` on whose constant matches. */
  function FirstArm(arms: seq<(int, string)>, t: Value, from: nat): (r: Option<nat>)
    requires from <= |arms|
    ensures r.Some? ==> from <= r.value < |arms| && LooselyEquals(t, arms[r.value].0)
    ensures r.Some? ==> forall j :: from <= j < r.value ==> !LooselyEquals(t, arms[j].0)
    ensures r.None? ==> forall j :: from <= j < |arms| ==> !LooselyEquals(t, arms[j].0)
    decreases |arms| - from
  {
    if from == |arms| then None
    else if LooselyEquals(t, arms[from].0) then Some(from)
    else FirstArm(arms, t, from + 1)
  }

  /** `getTypeString`: the name of the first matching arm, "CUSTOM" when
      none matches. */
  function GetTypeString(t: Value): (r: string)
    ensures r in LevelNames
  {
    match FirstArm(Arms, t, 0)
    case Some(i) => ArmNamesAreLevelNames(i); Arms[i].1
    case None => "CUSTOM"
  }

  lemma ArmNamesAreLevelNames(i: nat)
    requires i < |Arms|
    ensures Arms[i].1 in LevelNames
  {
  }

  /** The ten names. */
  const LevelNames: set<string> := {"DEBUG", "ERROR", "WARNING", "CRITICAL", "CUSTOM", "ALERT", "NOTICE", "INFO", "EMERGENCY", "SPECIAL"}

  /** An independent reading of the names: the level each one stands for. */
  function LevelOf(name: string): Option<int> {
    if name == "EMERGENCY" then Some(EMERGENCY)
    else if name == "CRITICAL" then Some(CRITICAL)
    else if name == "ALERT" then Some(ALERT)
    else if name == "ERROR" then Some(ERROR)
    else if name == "WARNING" then Some(WARNING)
    else if name == "NOTICE" then Some(NOTICE)
    else if name == "INFO" then Some(INFO)
    else if name == "DEBUG" then Some(DEBUG)
    else if name == "CUSTOM" then Some(CUSTOM)
    else if name == "SPECIAL" then Some(SPECIAL)
    else None
  }

  /** Each level constant is named by its own name: reading the name back
      gives the level, so distinct levels get distinct names. */
  lemma TypeStringNamesLevel(n: int)
    requires EMERGENCY <= n <= SPECIAL
    ensures LevelOf(GetTypeString(Int(n))) == Some(n)
  {
    var r := FirstArm(Arms, Int(n), 0);
    assert exists j :: 0 <= j < |Arms| && Arms[j].0 == n by {
      if n == DEBUG { assert Arms[0].0 == n; }
      else if n == ERROR { assert Arms[1].0 == n; }
      else if n == WARNING { assert Arms[2].0 == n; }
      else if n == CRITICAL { assert Arms[3].0 == n; }
      else if n == CUSTOM { assert Arms[4].0 == n; }
      else if n == ALERT { assert Arms[5].0 == n; }
      else if n == NOTICE { assert Arms[6].0 == n; }
      else if n == INFO { assert Arms[7].0 == n; }
      else if n == EMERGENCY { assert Arms[8].0 == n; }
      else { assert Arms[9].0 == n; }
    }
    assert r.Some?;
    var i := r.value;
    assert Arms[i].0 == n;
    ArmsNameTheirLevels();
  }

  /** Every arm's name reads back as its own constant. */
  lemma ArmsNameTheirLevels()
    ensures forall j :: 0 <= j < |Arms| ==> LevelOf(Arms[j].1) == Some(Arms[j].0)
  {
    assert LevelOf("DEBUG") == Some(DEBUG);
    assert LevelOf("ERROR") == Some(ERROR);
    assert LevelOf("WARNING") == Some(WARNING);
    assert LevelOf("CRITICAL") == Some(CRITICAL);
    assert LevelOf("CUSTOM") == Some(CUSTOM);
    assert LevelOf("ALERT") == Some(ALERT);
    assert LevelOf("NOTICE") == Some(NOTICE);
    assert LevelOf("INFO") == Some(INFO);
    assert LevelOf("EMERGENCY") == Some(EMERGENCY);
    assert LevelOf("SPECIAL") == Some(SPECIAL);
  }

  /** An integer outside the ten constants is "CUSTOM". */
  lemma OtherIntegersAreCustom(n: int)
    requires n < EMERGENCY || SPECIAL < n
    ensures GetTypeString(Int(n)) == "CUSTOM"
  {
    assert forall j :: 0 <= j < |Arms| ==> EMERGENCY <= Arms[j].0 <= SPECIAL;
  }

  /** The `{key}` a context entry fills. */
  function Placeholder(k: Key): string {
    "{" + KeyToString(k) + "}"
  }

  /** The replacement array the `foreach` builds: each entry's placeholder
      maps to its value as a string, a later entry overwriting an earlier
      one with the same placeholder. */
  function Replacements(es: seq<Entry>): (r: map<string, string>)
    ensures Text.KeysStartWith(r, '{')
    decreases |es|
  {
    if |es| == 0 then map[]
    else
      var e := es[|es| - 1];
      Replacements(es[..|es| - 1])[Placeholder(e.key) := StrOf(e.val)]
  }

  /** `interpolate(message, context)`. */
  function Interpolate(message: string, context: Value): (r: string)
    ensures !context.Arr? || |context.entries| == 0 ==> r == message
  {
    if context.Arr? && |context.entries| > 0 then
      Text.Strtr(message, Replacements(context.entries))
    else message
  }

  /** No two entries fill the same placeholder (an `IntKey(1)` and a
      `StrKey("1")` would). */
  predicate DistinctPlaceholders(es: seq<Entry>) {
    forall i, j :: 0 <= i < j < |es| ==> Placeholder(es[i].key) != Placeholder(es[j].key)
  }

  /** Every entry's placeholder is replaced by that entry's value, and no
      other placeholder is defined. */
  lemma {:induction false} ReplacementsOfEntries(es: seq<Entry>, i: nat)
    requires DistinctPlaceholders(es)
    requires i < |es|
    ensures Placeholder(es[i].key) in Replacements(es)
    ensures Replacements(es)[Placeholder(es[i].key)] == StrOf(es[i].val)
    decreases |es|
  {
    var last := |es| - 1;
    if i < last {
      var prefix := es[..last];
      assert DistinctPlaceholders(prefix) by {
        forall a, b | 0 <= a < b < |prefix|
          ensures Placeholder(prefix[a].key) != Placeholder(prefix[b].key)
        {
          assert prefix[a] == es[a] && prefix[b] == es[b];
        }
      }
      assert prefix[i] == es[i];
      ReplacementsOfEntries(prefix, i);
      assert Placeholder(es[i].key) != Placeholder(es[last].key);
    }
  }

  /** The replacement array defines exactly the placeholders of the
      context's keys. */
  lemma ReplacementsOnlyPlaceholders(es: seq<Entry>, p: string)
    ensures p in Replacements(es) <==> exists i :: 0 <= i < |es| && Placeholder(es[i].key) == p
  {
    if p in Replacements(es) {
      var i := PlaceholderWitness(es, p);
    }
    if i :| 0 <= i < |es| && Placeholder(es[i].key) == p {
      PlaceholderPresent(es, i);
    }
  }

  /** Which entry put a placeholder into the replacement array. */
  lemma {:induction false} PlaceholderWitness(es: seq<Entry>, p: string) returns (i: nat)
    requires p in Replacements(es)
    ensures i < |es| && Placeholder(es[i].key) == p
    decreases |es|
  {
    var last := |es| - 1;
    var prefix := es[..last];
    assert Replacements(es) == Replacements(prefix)[Placeholder(es[last].key) := StrOf(es[last].val)];
    if p == Placeholder(es[last].key) {
      i := last;
    } else {
      i := PlaceholderWitness(prefix, p);
      assert prefix[i] == es[i];
    }
  }

  /** Every entry's placeholder is in the replacement array. */
  lemma {:induction false} PlaceholderPresent(es: seq<Entry>, i: nat)
    requires i < |es|
    ensures Placeholder(es[i].key) in Replacements(es)
    decreases |es|
  {
    var last := |es| - 1;
    var prefix := es[..last];
    assert Replacements(es) == Replacements(prefix)[Placeholder(es[last].key) := StrOf(es[last].val)];
    if i < last {
      PlaceholderPresent(prefix, i);
      assert prefix[i] == es[i];
    }
  }

  /** A context key's placeholder in the message is replaced by its value;
      text before it that opens no brace is kept, and the rest is
      interpolated in turn. */
  lemma PlaceholderReplaced(pre: string, k: Key, post: string, context: Value)
    requires context.Arr? && DistinctPlaceholders(context.entries)
    requires Find(context.entries, k).Some?
    requires '{' !in pre
    requires Text.Unextended(Placeholder(k), Replacements(context.entries))
    ensures Interpolate(pre + Placeholder(k) + post, context) ==
            pre + StrOf(Find(context.entries, k).value) + Interpolate(post, context)
  {
    var es := context.entries;
    var pairs := Replacements(es);
    var v := Find(es, k).value;
    var i :| 0 <= i < |es| && es[i] == Entry(k, v);
    ReplacementsOfEntries(es, i);
    Text.FillOne(pre, Placeholder(k), post, pairs, '{');
  }

  /** A message that holds no context key's placeholder is returned as it
      is. */
  lemma NoPlaceholderUnchanged(message: string, context: Value)
    requires forall e :: context.Arr? && e in context.entries ==> !Text.OccursIn(Placeholder(e.key), message)
    ensures Interpolate(message, context) == message
  {
    if context.Arr? && |context.entries| > 0 {
      var es := context.entries;
      forall p | p in Replacements(es)
        ensures !Text.OccursIn(p, message)
      {
        ReplacementsOnlyPlaceholders(es, p);
        var i :| 0 <= i < |es| && Placeholder(es[i].key) == p;
        assert es[i] in es;
      }
      Text.StrtrWithoutKeys(message, Replacements(es));
    }
  }
}
