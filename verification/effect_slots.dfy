/** The bounded per-category effect lists of `UserState` and `add_effect`. An effect is
    modelled by the set of categories it is an instance of; a category is tried in the
    fixed order Audio, HiddenText, ExplicitText, Phonemic, Voice and the first one the
    effect belongs to receives it. */
module EffectSlots {
  import opened Wrappers
  import opened Seqs

  datatype Category = Audio | HiddenText | ExplicitText | Phonemic | Voice

  /** The order in which `add_effect` tests the categories. */
  const CategoryOrder: seq<Category> := [Audio, HiddenText, ExplicitText, Phonemic, Voice]

  /** At most this many effects of one category are active at a time. */
  const Capacity: nat := 5

  /** An effect, identified by a name, and the categories it is an instance of. A nested
      group, which is no instance of any category, has an empty set. */
  datatype Effect = Effect(name: string, categories: set<Category>)

  /** The argument of `add_effect`: one effect, or an `EffectGroup` to unpack. */
  datatype EffectArg = Single(effect: Effect) | Group(members: seq<Effect>)

  /** The five lists, oldest effect first. */
  datatype Slots = Slots(
    audio: seq<Effect>,
    hiddenText: seq<Effect>,
    explicitText: seq<Effect>,
    phonemic: seq<Effect>,
    voice: seq<Effect>)
  {
    function Get(c: Category): (s: seq<Effect>)
    {
      match c
      case Audio => audio
      case HiddenText => hiddenText
      case ExplicitText => explicitText
      case Phonemic => phonemic
      case Voice => voice
    }

    function Set(c: Category, effects: seq<Effect>): (s: Slots)
      ensures s.Get(c) == effects
      ensures forall d :: d != c ==> s.Get(d) == Get(d)
    {
      match c
      case Audio => this.(audio := effects)
      case HiddenText => this.(hiddenText := effects)
      case ExplicitText => this.(explicitText := effects)
      case Phonemic => this.(phonemic := effects)
      case Voice => this.(voice := effects)
    }

    predicate Bounded()
    {
      forall c :: |Get(c)| <= Capacity
    }
  }

  /** The state `UserState.__init__` creates. */
  const EmptySlots: Slots := Slots([], [], [], [], [])

  /** Position of a category in `CategoryOrder`. */
  function Rank(c: Category): (k: nat)
    ensures k < |CategoryOrder| && CategoryOrder[k] == c
  {
    match c
    case Audio => 0
    case HiddenText => 1
    case ExplicitText => 2
    case Phonemic => 3
    case Voice => 4
  }

  /** Index of the first category of `order` the effect belongs to (the `for cls in …`
      loop with its `break`). */
  function FirstIn(order: seq<Category>, categories: set<Category>): (r: Option<nat>)
    ensures r.Some? ==> r.value < |order| && order[r.value] in categories
    ensures r.Some? ==> forall j :: 0 <= j < r.value ==> order[j] !in categories
    ensures r.None? ==> forall k :: 0 <= k < |order| ==> order[k] !in categories
  {
    if |order| == 0 then None
    else if order[0] in categories then Some(0)
    else match FirstIn(order[1..], categories)
      case None => None
      case Some(k) => Some(k + 1)
  }

  /** Every category occurs in `CategoryOrder`, so an effect with some category is filed. */
  lemma EveryCategoryIsTried(categories: set<Category>)
    ensures FirstIn(CategoryOrder, categories).None? ==> categories == {}
  {
    if categories != {} {
      var d :| d in categories;
      assert CategoryOrder[Rank(d)] == d;
    }
  }

  /** The category `add_effect` files an effect under: the one of least rank among those
      the effect belongs to, or none when it belongs to none. */
  function Target(e: Effect): (r: Option<Category>)
    ensures r.None? <==> e.categories == {}
    ensures r.Some? ==> r.value in e.categories
    ensures r.Some? ==> forall d :: d in e.categories ==> Rank(r.value) <= Rank(d)
  {
    match FirstIn(CategoryOrder, e.categories)
    case None =>
      EveryCategoryIsTried(e.categories);
      None
    case Some(k) =>
      assert Rank(CategoryOrder[k]) == k;
      Some(CategoryOrder[k])
  }

  /** The last `n` elements of `s` (all of `s` when it is shorter). */
  function KeepLast(s: seq<Effect>, n: nat): (r: seq<Effect>)
    ensures |r| == if |s| <= n then |s| else n
  {
    if |s| <= n then s else s[|s| - n..]
  }

  /** Append to one list, evicting the oldest entry first when the list is full. */
  function Push(effects: seq<Effect>, e: Effect): (r: seq<Effect>)
    ensures |r| > 0 && r[|r| - 1] == e
    ensures |effects| <= Capacity ==> r == KeepLast(effects + [e], Capacity)
  {
    if |effects| == Capacity then effects[1..] + [e] else effects + [e]
  }

  /** Insert one (unpacked) effect. */
  function AddOne(slots: Slots, e: Effect): (r: Slots)
    ensures slots.Bounded() ==> r.Bounded()
    ensures Target(e).None? ==> r == slots
    ensures Target(e).Some? ==> forall d :: d != Target(e).value ==> r.Get(d) == slots.Get(d)
    ensures Target(e).Some? ==> |r.Get(Target(e).value)| > 0 && r.Get(Target(e).value)[|r.Get(Target(e).value)| - 1] == e
  {
    match Target(e)
    case None => slots
    case Some(c) => slots.Set(c, Push(slots.Get(c), e))
  }

  /** Insert effects one after the other, in order. */
  function AddAll(slots: Slots, effects: seq<Effect>): (r: Slots)
    ensures slots.Bounded() ==> r.Bounded()
    decreases |effects|
  {
    if |effects| == 0 then slots else AddAll(AddOne(slots, effects[0]), effects[1..])
  }

  function Unpack(arg: EffectArg): (effects: seq<Effect>)
  {
    match arg
    case Single(e) => [e]
    case Group(members) => members
  }

  /** `add_effect`: unpack a group, then insert its members in order. */
  function AddEffect(slots: Slots, arg: EffectArg): (r: Slots)
    ensures slots.Bounded() ==> r.Bounded()
  {
    AddAll(slots, Unpack(arg))
  }

  /** The effects of `effects`, in order, that are filed under `c`. */
  function RoutedTo(effects: seq<Effect>, c: Category): (r: seq<Effect>)
  {
    if |effects| == 0 then []
    else (if Target(effects[0]) == Some(c) then [effects[0]] else []) + RoutedTo(effects[1..], c)
  }

  /** The last n of a suffix that still holds n elements are the last n of the whole. */
  lemma KeepLastOfSuffix(s: seq<Effect>, i: nat, n: nat)
    requires i <= |s| && |s| - i >= n
    ensures KeepLast(s[i..], n) == KeepLast(s, n)
  {
    assert s[i..][|s| - i - n..] == s[|s| - n..];
  }

  /** Truncating before appending changes nothing about the last n elements. */
  lemma KeepLastAbsorbs(a: seq<Effect>, b: seq<Effect>, n: nat)
    ensures KeepLast(KeepLast(a, n) + b, n) == KeepLast(a + b, n)
  {
    if |a| > n {
      assert KeepLast(a, n) + b == (a + b)[|a| - n..];
      KeepLastOfSuffix(a + b, |a| - n, n);
    }
  }

  /** One insertion, seen from one category. */
  lemma AddOneGet(slots: Slots, e: Effect, c: Category)
    requires slots.Bounded()
    ensures AddOne(slots, e).Get(c) == KeepLast(slots.Get(c) + (if Target(e) == Some(c) then [e] else []), Capacity)
  {
    if Target(e) != Some(c) {
      assert slots.Get(c) + [] == slots.Get(c);
    }
  }

  /** `add_effect` seen from every category at once: each list becomes the last five of
      its old contents followed by the unpacked effects routed to it. */
  lemma AddEffectKeepsLastFive(slots: Slots, arg: EffectArg)
    requires slots.Bounded()
    ensures forall c :: AddEffect(slots, arg).Get(c) == KeepLast(slots.Get(c) + RoutedTo(Unpack(arg), c), Capacity)
  {
    forall c
      ensures AddEffect(slots, arg).Get(c) == KeepLast(slots.Get(c) + RoutedTo(Unpack(arg), c), Capacity)
    {
      AddAllKeepsLastFive(slots, Unpack(arg), c);
    }
  }

  /** Reference description of a run of insertions: each list ends up holding the last
      five of its old contents followed by the effects routed to it, in insertion order. */
  lemma {:induction false} AddAllKeepsLastFive(slots: Slots, effects: seq<Effect>, c: Category)
    requires slots.Bounded()
    ensures AddAll(slots, effects).Get(c) == KeepLast(slots.Get(c) + RoutedTo(effects, c), Capacity)
    decreases |effects|
  {
    if |effects| == 0 {
      assert slots.Get(c) + RoutedTo(effects, c) == slots.Get(c);
    } else {
      var e, rest := effects[0], effects[1..];
      var s1 := AddOne(slots, e);
      var routed := if Target(e) == Some(c) then [e] else [];
      AddOneGet(slots, e, c);
      AddAllKeepsLastFive(s1, rest, c);
      assert AddAll(slots, effects) == AddAll(s1, rest);
      var before, tail := slots.Get(c), RoutedTo(rest, c);
      KeepLastAbsorbs(before + routed, tail, Capacity);
      assert RoutedTo(effects, c) == routed + tail;
      ConcatAssoc(before, routed, tail);
    }
  }

  /** When every effect is filed under `c`, all of them are routed to `c`. */
  lemma {:induction false} RoutedToAll(effects: seq<Effect>, c: Category)
    requires forall i :: 0 <= i < |effects| ==> Target(effects[i]) == Some(c)
    ensures RoutedTo(effects, c) == effects
    decreases |effects|
  {
    if |effects| > 0 {
      RoutedToAll(effects[1..], c);
    }
  }

  /** Starting from a list of at most five, the sixth effect of one category evicts the
      oldest: the list loses its first entry and gains the new one at the end. */
  lemma FullListEvictsOldest(slots: Slots, e: Effect)
    requires slots.Bounded()
    requires Target(e).Some? && |slots.Get(Target(e).value)| == Capacity
    ensures AddEffect(slots, Single(e)).Get(Target(e).value) == slots.Get(Target(e).value)[1..] + [e]
  {
    assert Unpack(Single(e)) == [e] && [e][1..] == [];
    assert AddEffect(slots, Single(e)) == AddAll(AddOne(slots, e), []) == AddOne(slots, e);
  }

  /** Adding a group of effects of one category to an empty list of that category keeps
      the five most recent, oldest first (so the sixth evicts the first). The lists start
      out empty in `UserState()`. */
  lemma OneCategoryGroupKeepsLastFive(slots: Slots, es: seq<Effect>, c: Category)
    requires slots.Bounded() && slots.Get(c) == []
    requires forall i :: 0 <= i < |es| ==> Target(es[i]) == Some(c)
    ensures |es| <= Capacity ==> AddEffect(slots, Group(es)).Get(c) == es
    ensures |es| > Capacity ==> AddEffect(slots, Group(es)).Get(c) == es[|es| - Capacity..]
  {
    FiledGroupKeepsLast(slots, es, c);
  }

  lemma FiledGroupKeepsLast(slots: Slots, es: seq<Effect>, c: Category)
    requires slots.Bounded() && slots.Get(c) == []
    requires forall i :: 0 <= i < |es| ==> Target(es[i]) == Some(c)
    ensures AddEffect(slots, Group(es)).Get(c) == KeepLast(es, Capacity)
  {
    GroupKeepsLast(slots, es, c);
    RoutedToAll(es, c);
    assert slots.Get(c) + RoutedTo(es, c) == es;
  }

  /** A group, seen from one category: the last five of the old list followed by the
      members filed under that category. */
  lemma GroupKeepsLast(slots: Slots, es: seq<Effect>, c: Category)
    requires slots.Bounded()
    ensures AddEffect(slots, Group(es)).Get(c) == KeepLast(slots.Get(c) + RoutedTo(es, c), Capacity)
  {
    assert Unpack(Group(es)) == es;
    AddAllKeepsLastFive(slots, es, c);
  }
}
