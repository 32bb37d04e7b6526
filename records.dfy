/**
 * The flat event record the application keeps in its list, the category
 * palette, and the sources of non-determinism (the clock, generated ids and the
 * random category) made explicit as an environment.
 */
module Records {
  import opened JsString
  import opened JsDate

  /**
   * An event record: `id` is the ICS UID, `category` is an application-only
   * colour tag. Text fields may be `undefined` when the fallback scanner met a
   * property line without a colon.
   */
  datatype Event = Event(
    id: Text,
    title: Text,
    start: Time,
    end: Time,
    description: Text,
    location: Text,
    category: string,
    allDay: bool)

  datatype Category = Category(id: string, name: string, color: string)

  /** The seven calendar categories, blue first. */
  const Categories: seq<Category> := [
    Category("blue", "Blue", "#4285F4"),
    Category("red", "Red", "#EA4335"),
    Category("yellow", "Yellow", "#FBBC05"),
    Category("green", "Green", "#34A853"),
    Category("purple", "Purple", "#8E24AA"),
    Category("cyan", "Cyan", "#24C1E0"),
    Category("orange", "Orange", "#F4511E")
  ]

  /** The category of a new record, and the fallback for an empty category. */
  const DefaultCategory: string := "blue"

  predicate IsCategoryId(c: string) {
    exists k :: 0 <= k < |Categories| && Categories[k].id == c
  }

  /**
   * What the program takes from its surroundings during one action: the time
   * `new Date()` / `Date.now()` reads, the `Date.now()`-and-`Math.random()` id
   * generated for the k-th candidate event, and the category id
   * `categories[Math.floor(Math.random() * categories.length)].id` drawn for it.
   */
  datatype Env = Env(now: Epoch, freshId: nat -> string, pickCategory: nat -> string)

  /** Every category the environment draws is one of the palette's, and every generated id is non-empty. */
  ghost predicate ValidEnv(env: Env) {
    forall k: nat :: IsCategoryId(env.pickCategory(k)) && env.freshId(k) != ""
  }

  /** `cats.findIndex(cat => cat.id === id)`: the first entry with the id, or -1. */
  function FindCategory(cats: seq<Category>, id: string): (k: int)
    ensures -1 <= k < |cats|
    ensures k >= 0 ==> cats[k].id == id
    ensures forall j :: 0 <= j < |cats| && (k == -1 || j < k) ==> cats[j].id != id
  {
    if cats == [] then -1
    else if cats[0].id == id then 0
    else
      var k := FindCategory(cats[1..], id);
      if k == -1 then -1 else k + 1
  }

  /** The colour of a palette category, and the first category's colour for any other id. */
  function CategoryColor(id: string): (c: string)
    ensures IsCategoryId(id) ==> exists k :: 0 <= k < |Categories| && Categories[k].id == id && c == Categories[k].color
    ensures !IsCategoryId(id) ==> c == Categories[0].color
  {
    var k := FindCategory(Categories, id);
    if k == -1 then Categories[0].color else Categories[k].color
  }

  /** The random category drawn for the k-th candidate. */
  function RandomCategory(env: Env, k: nat): string {
    env.pickCategory(k)
  }
}
