/**
 * The pending balance adjustment of each operator, kept in the browser's storage until it is known
 * to be made, so that a retry sends the very same one.
 */
module Adjustment {
  import opened Options
  import Pricing

  datatype Intent = Intent(operator: string, cardId: string, delta: real, reason: string, key: string,
                           invocationId: Option<string>, allowRepeat: bool)

  /** What is stored under an operator's key: an intent as JSON, or anything else. */
  datatype Stored = Json(intent: Intent) | Damaged(text: string)

  type Items = map<string, Stored>

  predicate IsBlank(s: string) {
    forall i | 0 <= i < |s| :: s[i] == ' ' || s[i] == '\t' || s[i] == '\n' || s[i] == '\r'
  }

  predicate IsToken(s: string, most: nat) {
    1 <= |s| <= most && forall i | 0 <= i < |s| ::
      'a' <= s[i] <= 'z' || 'A' <= s[i] <= 'Z' || '0' <= s[i] <= '9' || s[i] == '_' || s[i] == '.' || s[i] == ':'
        || s[i] == '-'
  }

  predicate IsValid(v: Intent, operator: string) {
    && 1 <= |operator| <= 128 && v.operator == operator && 1 <= |v.cardId| <= 256 && v.delta != 0.0
    && !IsBlank(v.reason) && |v.reason| <= 500 && IsToken(v.key, 128)
    && (v.invocationId.Some? ==> IsToken(v.invocationId.value, 257)) && (v.allowRepeat ==> v.invocationId.Some?)
  }

  /** ASCII digits, letters, and hyphen, dot, colon and underscore. */
  predicate InToken(c: char) {
    var n := c as int;
    48 <= n < 58 || 65 <= n < 91 || 97 <= n < 123 || n in {45, 46, 58, 95}
  }

  /** A key: so many letters, digits, underscores, dots, colons and hyphens. */
  lemma TokenExactly(s: string, most: nat)
    ensures IsToken(s, most) <==> s != "" && |s| < most + 1 && forall c | c in s :: InToken(c)
  {
    if s != "" && forall c | c in s :: InToken(c) {
      assert forall i | 0 <= i < |s| :: s[i] in s && InToken(s[i]);
    }
  }

  /**
   * An intent is accepted exactly if it is its operator's, names a card, moves something, for a reason, under a key.
   */
  lemma ValidExactly(v: Intent, operator: string)
    ensures IsValid(v, operator) <==>
              && v.operator == operator && operator != "" && |operator| < 129
              && v.cardId != "" && |v.cardId| < 257 && (v.delta < 0.0 || v.delta > 0.0)
              && (exists c :: c in v.reason && c !in " \t\n\r") && |v.reason| < 501
              && IsToken(v.key, 128)
              && (match v.invocationId
                  case Some(id) => IsToken(id, 257)
                  case None => !v.allowRepeat)
  {
    if !IsBlank(v.reason) {
      var i :| 0 <= i < |v.reason|
        && !(v.reason[i] == ' ' || v.reason[i] == '\t' || v.reason[i] == '\n' || v.reason[i] == '\r');
      assert v.reason[i] in v.reason && v.reason[i] !in " \t\n\r";
    }
  }

  datatype Loaded = Nothing | Found(intent: Intent) | Unreadable

  function Load(items: Items, operator: string): Loaded {
    if operator !in items then Nothing
    else if items[operator].Json? && IsValid(items[operator].intent, operator) then Found(items[operator].intent)
    else Unreadable
  }

  /** At most 1,000,000 either way, with at most six decimals. */
  predicate InRange(delta: real) {
    -1000000.0 <= delta <= 1000000.0 && Pricing.RoundHalfUp(delta * 1000000.0) as real / 1000000.0 == delta
  }

  function OfMicro(micro: int): real { micro as real / 1000000.0 }

  /** Whole micro-credits, at most a million million of them either way. */
  lemma InRangeExactly(delta: real)
    ensures InRange(delta) <==> exists micro :: -1000000000000 <= micro <= 1000000000000 && delta == OfMicro(micro)
  {
    if InRange(delta) {
      MicroInRange(delta, Pricing.RoundHalfUp(delta * 1000000.0));
    }
    if micro :| -1000000000000 <= micro <= 1000000000000 && delta == OfMicro(micro) {
      assert delta * 1000000.0 == micro as real;
      assert Pricing.RoundHalfUp(micro as real) == micro;
    }
  }

  lemma MicroInRange(delta: real, micro: int)
    requires -1000000.0 <= delta <= 1000000.0 && delta == OfMicro(micro)
    ensures -1000000000000 <= micro <= 1000000000000
  {
    assert micro as real == delta * 1000000.0;
  }

  datatype Outcome = Done | InvalidIntent | CannotRead | OutOfRange | AnotherPending | NotStored

  predicate MaySave(items: Items, intent: Intent) {
    && IsValid(intent, intent.operator)
    && match Load(items, intent.operator)
       case Nothing => InRange(intent.delta)
       case Found(was) => was == intent
       case Unreadable => false
  }

  /** `keeps`: whether the storage takes what it is given. */
  datatype Operation = Save(intent: Intent, keeps: bool) | Look(operator: string) | Clear(intent: Intent)

  /**
   * A valid intent is what its operator has exactly when it is stored under that name; nothing stored is nothing
   * there.
   */
  lemma LoadExactly(items: Items, operator: string)
    ensures Load(items, operator) == Nothing <==> operator !in items
    ensures forall v :: Load(items, operator) == Found(v) <==>
        operator in items && items[operator] == Json(v) && IsValid(v, operator)
  {
  }

  function After(items: Items, op: Operation): Items {
    match op
    case Save(intent, keeps) => if MaySave(items, intent) && keeps then items[intent.operator := Json(intent)]
      else items
    case Look(_) => items
    case Clear(intent) =>
      var loaded := Load(items, intent.operator);
      if loaded.Found? && loaded.intent.key == intent.key then items - {intent.operator} else items
  }

  function Run(items: Items, ops: seq<Operation>): Items {
    if ops == [] then items else After(Run(items, ops[..|ops| - 1]), ops[|ops| - 1])
  }

  class Storage {
    var items: Items

    constructor ()
      ensures items == map[]
    {
      items := map[];
    }

    method SetItem(operator: string, value: Stored, keeps: bool)
      modifies this
      ensures items == if keeps then old(items)[operator := value] else old(items)
    {
      if keeps { items := items[operator := value]; }
    }

    method LoadAdjustment(operator: string) returns (r: Loaded)
      ensures r == Load(items, operator)
    {
      if operator !in items { return Nothing; }
      var raw := items[operator];
      r := if raw.Json? && IsValid(raw.intent, operator) then Found(raw.intent) else Unreadable;
    }

    /** Done means that the very intent is stored. */
    method SaveAdjustment(intent: Intent, keeps: bool) returns (r: Outcome)
      modifies this
      ensures items == After(old(items), Save(intent, keeps))
      ensures r == Done ==> Load(items, intent.operator) == Found(intent)
      ensures r == Done <==>
          MaySave(old(items), intent) && (keeps || Load(old(items), intent.operator) == Found(intent))
      ensures r == InvalidIntent <==> !IsValid(intent, intent.operator)
      ensures IsValid(intent, intent.operator) ==>
          var was := Load(old(items), intent.operator);
          && (r == CannotRead <==> was == Unreadable)
          && (r == OutOfRange <==> was == Nothing && !InRange(intent.delta))
          && (r == AnotherPending <==> was.Found? && was.intent != intent)
    {
      if !IsValid(intent, intent.operator) { return InvalidIntent; }
      var was := LoadAdjustment(intent.operator);
      if was.Unreadable? { return CannotRead; }
      if was.Nothing? && !InRange(intent.delta) { return OutOfRange; }
      if was.Found? && was.intent != intent { return AnotherPending; }
      SetItem(intent.operator, Json(intent), keeps);
      if intent.operator !in items || items[intent.operator] != Json(intent) { return NotStored; }
      r := Done;
    }

    method ClearAdjustment(intent: Intent) returns (r: Outcome)
      modifies this
      ensures items == After(old(items), Clear(intent))
      ensures r == if Load(old(items), intent.operator) == Unreadable then CannotRead else Done
    {
      var was := LoadAdjustment(intent.operator);
      if was.Unreadable? { return CannotRead; }
      if was.Found? && was.intent.key == intent.key { items := items - {intent.operator}; }
      r := Done;
    }
  }

  predicate ClearedBy(op: Operation, operator: string, key: string) {
    op.Clear? && op.intent.operator == operator && op.intent.key == key
  }

  predicate IsOf(op: Operation, operator: string) { !op.Look? && op.intent.operator == operator }

  /**
   * Over any operations of any operators, a stored intent is replaced by nothing but itself, and is
   * there until it is cleared under its own key.
   */
  lemma {:induction false} IntentStays(items: Items, ops: seq<Operation>, operator: string)
    requires Load(items, operator).Found?
    requires forall k | 0 <= k < |ops| :: !ClearedBy(ops[k], operator, Load(items, operator).intent.key)
    ensures operator in Run(items, ops) && Run(items, ops)[operator] == items[operator]
  {
    if ops != [] {
      var front := ops[..|ops| - 1];
      assert forall k | 0 <= k < |front| :: front[k] == ops[k];
      IntentStays(items, front, operator);
    }
  }

  /** What cannot be read is never overwritten or removed. */
  lemma {:induction false} DamageStays(items: Items, ops: seq<Operation>, operator: string)
    requires Load(items, operator).Unreadable?
    ensures operator in Run(items, ops) && Run(items, ops)[operator] == items[operator]
  {
    if ops != [] { DamageStays(items, ops[..|ops| - 1], operator); }
  }

  /** Nobody's intent is touched by the operations of others. */
  lemma {:induction false} OthersUntouched(items: Items, ops: seq<Operation>, operator: string)
    requires forall k | 0 <= k < |ops| :: !IsOf(ops[k], operator)
    ensures operator in items <==> operator in Run(items, ops)
    ensures operator in items ==> Run(items, ops)[operator] == items[operator]
  {
    if ops != [] {
      var front := ops[..|ops| - 1];
      assert forall k | 0 <= k < |front| :: front[k] == ops[k];
      OthersUntouched(items, front, operator);
    }
  }

  /** At some moment of the run the intent is not what is stored. */
  ghost predicate IsGone(items: Items, ops: seq<Operation>, intent: Intent) {
    exists k {:trigger ops[..k]} | 0 <= k <= |ops| :: Load(Run(items, ops[..k]), intent.operator) != Found(intent)
  }

  ghost predicate IsCleared(ops: seq<Operation>, intent: Intent) {
    exists k | 0 <= k < |ops| :: ClearedBy(ops[k], intent.operator, intent.key)
  }

  /**
   * A stored intent is gone at some moment of a run if and only if an operation of the run clears it under its own
   * key.
   */
  lemma {:induction false} GoneIffCleared(items: Items, ops: seq<Operation>, intent: Intent)
    requires Load(items, intent.operator) == Found(intent)
    ensures IsGone(items, ops, intent) <==> IsCleared(ops, intent)
  {
    if IsCleared(ops, intent) {
      ClearedIsGone(items, ops, intent);
    } else {
      forall k | 0 <= k <= |ops| ensures Load(Run(items, ops[..k]), intent.operator) == Found(intent) {
        assert forall j | 0 <= j < k :: ops[..k][j] == ops[j];
        IntentStays(items, ops[..k], intent.operator);
      }
    }
  }

  lemma ClearedAtLast(ops: seq<Operation>, intent: Intent)
    requires IsCleared(ops, intent)
    ensures IsCleared(ops[..|ops| - 1], intent) || ClearedBy(ops[|ops| - 1], intent.operator, intent.key)
  {
    var k :| 0 <= k < |ops| && ClearedBy(ops[k], intent.operator, intent.key);
    if k < |ops| - 1 { assert ops[..|ops| - 1][k] == ops[k]; }
  }

  lemma {:induction false} ClearedIsGone(items: Items, ops: seq<Operation>, intent: Intent)
    requires Load(items, intent.operator) == Found(intent) && IsCleared(ops, intent)
    ensures IsGone(items, ops, intent)
  {
    var front := ops[..|ops| - 1];
    if IsCleared(front, intent) {
      ClearedIsGone(items, front, intent);
      var k :| 0 <= k <= |front| && Load(Run(items, front[..k]), intent.operator) != Found(intent);
      assert ops[..k] == front[..k];
    } else {
      ClearedAtLast(ops, intent);
      IntentStays(items, front, intent.operator);
      assert ops[..|ops|] == ops;
    }
  }
}
