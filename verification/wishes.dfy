/** The fixed catalog of wishes the bot hands out, and the index a grant picks
    from it. The source draws the index at random; here it is an arbitrary
    in-range input. */
module Wishes {

  /** The wish strings, in catalog order (bot.py lines 27-43). */
  const Catalog: seq<string> := [
    "Сегодня хороший день, чтобы позволить себе спокойствие.",
    "Пусть сегодняшнее утро начнётся мягко.",
    "Иногда достаточно одного шага, и этого уже достаточно.",
    "Внутри всегда больше сил, чем кажется.",
    "Этот день может принести что-то хорошее.",
    "Пусть сегодня будет немного света.",
    "Хорошие перемены приходят постепенно.",
    "Можно замедлиться и позволить себе передышку.",
    "Сегодня подойдёт для чего-то приятного.",
    "Пусть мысли становятся мягче, а сердце теплее.",
    "Путь продолжается, даже если шаги маленькие.",
    "Можно опереться на то, что уже есть.",
    "Пусть этот день будет чуть легче.",
    "Всё нужное уже рядом.",
    "Пусть сегодня получится найти что-то доброе."
  ]

  /** A position in the catalog: the choice `random.choice` would make. */
  type WishIndex = i: nat | i < |Catalog|

  /** The wish at a catalog position. */
  function Pick(i: WishIndex): (w: string)
    ensures w in Catalog
  {
    Catalog[i]
  }

  /** Every catalog entry can be handed out: some index picks it. */
  lemma EveryWishReachable(w: string)
    requires w in Catalog
    ensures exists i: WishIndex :: Pick(i) == w
  {
    var i :| 0 <= i < |Catalog| && Catalog[i] == w;
    assert Pick(i) == w;
  }

}
