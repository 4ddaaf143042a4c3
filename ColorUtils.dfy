/** Display colours of todo items (utils/colorUtils.ts): a fixed palette of ten entries, a
    lookup by position, and a lookup by a 32-bit rolling hash of a string key. */
module ColorUtils {
  import opened Js

  datatype TodoColor = TodoColor(background: string, border: string, text: string, accent: string)

  /** `todoColors`. */
  const TodoColors: seq<TodoColor> := [
    TodoColor("#FFF5F5", "#FED7D7", "#744C4C", "#F56565"),  // light rose
    TodoColor("#F0FFF4", "#C6F6D5", "#276749", "#48BB78"),  // light green
    TodoColor("#FFFAF0", "#FEEBC8", "#C05621", "#ED8936"),  // light orange
    TodoColor("#EBF8FF", "#BEE3F8", "#2A69AC", "#4299E1"),  // light blue
    TodoColor("#FAF5FF", "#E9D8FD", "#553C9A", "#9F7AEA"),  // light purple
    TodoColor("#F7FAFC", "#E2E8F0", "#4A5568", "#718096"),  // light gray
    TodoColor("#FFFBEB", "#FEF5E7", "#B7791F", "#F6E05E"),  // light yellow
    TodoColor("#F0F9FF", "#BAE6FD", "#0C4A6E", "#0284C7"),  // light cyan
    TodoColor("#FEFCE8", "#D9F99D", "#365314", "#65A30D"),  // light lime
    TodoColor("#FDF2F8", "#FBCFE8", "#831843", "#EC4899")   // light pink
  ]

  /** The palette has ten entries, no two alike. */
  lemma PaletteHasTenColors()
    ensures |TodoColors| == 10
    ensures forall i, j :: 0 <= i < j < |TodoColors| ==> TodoColors[i] != TodoColors[j]
  {
  }

  /** `getTodoColorByIndex(index)`: `todoColors[index % 10]`. With JavaScript's `%`, a
      negative index gives a negative position, which reads `undefined` — unless the
      remainder is zero (`-0` reads position 0). */
  function ColorByIndex(index: int): (r: Option<TodoColor>)
    ensures index >= 0 ==> r == Some(TodoColors[index % 10])
    ensures r.Some? <==> index >= 0 || index % 10 == 0
    ensures r.Some? ==> r.value in TodoColors
    ensures index % 10 == 0 ==> r == Some(TodoColors[0])
  {
    var position := Remainder(index, |TodoColors|);
    if position >= 0 then Some(TodoColors[position]) else None
  }

  /** The polynomial hash `sum of units[i] * 31^(n-1-i)`, with no truncation. */
  function Polynomial(units: seq<int>): int {
    if units == [] then 0 else 31 * Polynomial(units[..|units| - 1]) + units[|units| - 1]
  }

  /** One round of the loop in `getTodoColorById`:
      `hash = ((hash << 5) - hash) + char; hash = hash & hash;`. It is `hash * 31 + char`
      truncated to 32 bits. */
  function HashStep(hash: int32, unit: int): (r: int32)
    ensures r == ToInt32(31 * hash + unit)
  {
    var a := ToInt32(hash * 32);
    assert (31 * hash + unit) - (a - hash + unit) == hash * 32 - a;
    ToInt32Congruent(31 * hash + unit, a - hash + unit);
    ToInt32(a - hash + unit)
  }

  /** The hash after the loop has consumed `units`, left to right, starting from 0. The
      32-bit truncation of each round loses nothing that matters modulo 2^32, so it is the
      truncated polynomial hash. */
  function HashOf(units: seq<int>): (r: int32)
    ensures r == ToInt32(Polynomial(units))
  {
    if units == [] then 0
    else
      var init, c := units[..|units| - 1], units[|units| - 1];
      var h := HashOf(init);
      var p := Polynomial(init);
      assert (p - h) % 0x1_0000_0000 == 0;
      var q := (p - h) / 0x1_0000_0000;
      assert p - h == q * 0x1_0000_0000;
      assert (31 * p + c) - (31 * h + c) == (31 * q) * 0x1_0000_0000;
      ModOfMultiple(31 * q);
      ToInt32Congruent(31 * p + c, 31 * h + c);
      HashStep(h, c)
  }

  lemma ModOfMultiple(q: int)
    ensures (q * 0x1_0000_0000) % 0x1_0000_0000 == 0
  {
  }

  /** `Math.abs(hash) % todoColors.length`. */
  function PaletteIndex(hash: int32): (r: nat)
    ensures r < |TodoColors|
  {
    Abs(hash) % |TodoColors|
  }

  /** The position even of the smallest hash, whose absolute value leaves int32, is 8. */
  lemma SmallestHashIndex()
    ensures PaletteIndex(-0x8000_0000) == 8
  {
  }

  /** The colour `getTodoColorById` picks for a key. */
  function ColorFor(key: string): (color: TodoColor)
    ensures color in TodoColors
    ensures color == TodoColors[Abs(ToInt32(Polynomial(CodeUnits(key)))) % 10]
  {
    TodoColors[PaletteIndex(HashOf(CodeUnits(key)))]
  }

  /** The empty key hashes to 0 and takes the first palette entry. */
  lemma EmptyKeyColor()
    ensures HashOf(CodeUnits("")) == 0
    ensures ColorFor("") == TodoColors[0]
  {
  }

  /** Hashes of short keys, worked out by hand. */
  lemma HashExamples()
    ensures HashOf(CodeUnits("a")) == 97
    ensures HashOf(CodeUnits("ab")) == 97 * 31 + 98
  {
    assert "ab"[..1] == "a";
    assert CodeUnits("a") == [97];
    assert CodeUnits("ab") == [97, 98];
    assert [97, 98][..1] == [97];
    assert Polynomial([97, 98]) == 97 * 31 + 98;
    ToInt32OfInt32(97);
    ToInt32OfInt32(97 * 31 + 98);
  }

  lemma ToInt32OfInt32(x: int32)
    ensures ToInt32(x) == x
  {
  }

  /** `getTodoColorById(id)`: runs the hash over the code units of `id`, left to right,
      and picks the palette entry at `|hash| % 10`. */
  method GetTodoColorById(id: string) returns (color: TodoColor)
    ensures color == TodoColors[Abs(ToInt32(Polynomial(CodeUnits(id)))) % 10]
    ensures color == ColorFor(id)
  {
    var units := CodeUnits(id);
    var hash: int32 := 0;
    for i := 0 to |units|
      invariant hash == HashOf(units[..i])
    {
      var unit := units[i];
      hash := HashStep(hash, unit);
      assert units[..i + 1][..i] == units[..i];
    }
    assert units[..|units|] == units;
    var index := Abs(hash) % |TodoColors|;
    color := TodoColors[index];
  }
}
