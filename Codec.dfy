/** The text codec that saves a game in three columns of the user's row
    (DatabaseHelper's serializeCard/deserializeCard, serializeList/
    deserializeList, serializeMarked/deserializeMarked). Every encoder appends
    to a StringBuilder, writing a comma before a part whenever the builder is
    not empty; every decoder splits at commas. */
module Codec {
  import opened Grid
  import opened Decimal
  import opened Card

  // ---------------------------------------------------------------------
  // Building and splitting comma-separated text.

  /** One StringBuilder step: a comma if something was written already, then x. */
  function Append(sb: string, x: string): string {
    (if |sb| > 0 then sb + "," else sb) + x
  }

  /** The text the encoders' loops build from their parts, in order. */
  function Build(parts: seq<string>): string
    decreases |parts|
  {
    if parts == [] then "" else Append(Build(parts[..|parts| - 1]), parts[|parts| - 1])
  }

  /** The fields of s between commas, in order; "" has the single field "".
      Unlike Java's `String.split`, trailing empty fields are kept. */
  function Split(s: string): (parts: seq<string>)
    ensures |parts| >= 1
    decreases |s|
  {
    if s == [] then [""]
    else
      var init := Split(s[..|s| - 1]);
      var ch := s[|s| - 1];
      if ch == ',' then init + [""]
      else init[..|init| - 1] + [init[|init| - 1] + [ch]]
  }

  predicate PartOk(x: string) {
    ',' !in x && x != ""
  }

  lemma {:induction false} SplitNoComma(x: string)
    requires ',' !in x
    ensures Split(x) == [x]
    decreases |x|
  {
    if x != [] {
      SplitNoComma(x[..|x| - 1]);
      assert x[..|x| - 1] + [x[|x| - 1]] == x;
    }
  }

  lemma {:induction false} SplitAfterComma(a: string, x: string)
    requires ',' !in x
    ensures Split(a + "," + x) == Split(a) + [x]
    decreases |x|
  {
    if x == [] {
      assert a + "," + x == a + ",";
      assert (a + ",")[..|a + ","| - 1] == a;
    } else {
      var x' := x[..|x| - 1];
      var s := a + "," + x;
      assert s[..|s| - 1] == a + "," + x';
      SplitAfterComma(a, x');
      assert x' + [x[|x| - 1]] == x;
    }
  }

  /** Splitting what the encoders build gives back the parts. */
  lemma {:induction false} SplitBuild(parts: seq<string>)
    requires |parts| >= 1
    requires forall i :: 0 <= i < |parts| ==> PartOk(parts[i])
    ensures Split(Build(parts)) == parts
    ensures Build(parts) != ""
    decreases |parts|
  {
    var init := parts[..|parts| - 1];
    var last := parts[|parts| - 1];
    if |parts| == 1 {
      assert Build(parts) == Append("", last) == last;
      SplitNoComma(last);
    } else {
      SplitBuild(init);
      assert Build(parts) == Build(init) + "," + last;
      SplitAfterComma(Build(init), last);
      assert init + [last] == parts;
    }
  }

  /** The decimal text of each value. */
  function ShowAll(xs: seq<int>): (texts: seq<string>)
    ensures |texts| == |xs|
    ensures forall i :: 0 <= i < |xs| ==> texts[i] == Show(xs[i]) && PartOk(texts[i])
  {
    seq(|xs|, i requires 0 <= i < |xs| => ShowOk(xs[i]); Show(xs[i]))
  }

  lemma ShowOk(x: int)
    ensures PartOk(Show(x))
  {
    ShowHasNoComma(x);
  }

  // ---------------------------------------------------------------------
  // The card: 25 integers, row-major.

  /** `serializeCard`: the card text holds exactly the 25 values, row-major,
      as decimal fields between single commas. */
  function SerializeCard(card: Card): (s: string)
    requires Is5x5(card)
    ensures s != ""
    ensures |Split(s)| == 25
    ensures forall r, c :: InGrid(r, c) ==> Split(s)[5 * r + c] == Show(card[r][c])
  {
    SplitBuild(ShowAll(Flatten(card)));
    Build(ShowAll(Flatten(card)))
  }

  /** A card text the decoder accepts: not empty, 25 fields, each an integer. */
  predicate CardTextOk(s: string) {
    s != "" && |Split(s)| == 25 && forall k :: 0 <= k < 25 ==> IsIntLiteral(Split(s)[k])
  }

  /** `deserializeCard`: None (the source's null) for an empty text, a field
      count other than 25, or a field that is not an integer; otherwise the
      grid of the parsed fields, row-major. */
  function DeserializeCard(s: string): (r: Option<Card>)
    ensures r.Some? <==> CardTextOk(s)
    ensures r.Some? ==> Is5x5(r.value)
    ensures r.Some? ==> forall r', c :: InGrid(r', c) ==> r.value[r'][c] == Parse(Split(s)[5 * r' + c])
  {
    if s == "" then None
    else
      var parts := Split(s);
      if |parts| != 25 then None
      else if exists k :: 0 <= k < 25 && !IsIntLiteral(parts[k]) then None
      else
        var card := Unflatten(seq(25, k requires 0 <= k < 25 => Parse(parts[k])));
        assert forall r', c :: InGrid(r', c) ==> (5 * r' + c) / 5 == r' && (5 * r' + c) % 5 == c;
        Some(card)
  }

  lemma CardRoundTrip(card: Card)
    requires Is5x5(card)
    ensures DeserializeCard(SerializeCard(card)) == Some(card)
  {
    var flat := Flatten(card);
    var parts := ShowAll(flat);
    SplitBuild(parts);
    var s := SerializeCard(card);
    assert Split(s) == parts;
    assert CardTextOk(s) by {
      forall k | 0 <= k < 25 ensures IsIntLiteral(parts[k]) {
        assert parts[k] == Show(flat[k]);
      }
    }
    var d := DeserializeCard(s).value;
    forall r, c | InGrid(r, c) ensures d[r][c] == card[r][c] {
      assert d[r][c] == Parse(parts[5 * r + c]);
      assert parts[5 * r + c] == Show(flat[5 * r + c]);
    }
    SameGridEqual(d, card);
  }

  // ---------------------------------------------------------------------
  // The drawn numbers: any number of integers, in draw order.

  /** `serializeList`: the empty list is written as "", and nothing else is;
      otherwise one decimal field per number, in order. */
  function SerializeList(xs: seq<int>): (s: string)
    ensures s == "" <==> xs == []
    ensures xs != [] ==> |Split(s)| == |xs| && forall i :: 0 <= i < |xs| ==> Split(s)[i] == Show(xs[i])
  {
    if xs != [] then SplitBuild(ShowAll(xs)); Build(ShowAll(xs)) else Build(ShowAll(xs))
  }

  /** Texts the list decoder can read without an exception: empty, or integer
      fields only. */
  predicate ListTextOk(s: string) {
    s == "" || forall k :: 0 <= k < |Split(s)| ==> IsIntLiteral(Split(s)[k])
  }

  /** `deserializeList`: the empty list for "", otherwise every field parsed.
      The source has no guard here: a field that is not an integer throws. */
  function DeserializeList(s: string): (xs: seq<int>)
    requires ListTextOk(s)
    ensures s == "" ==> xs == []
    ensures s != "" ==> |xs| == |Split(s)| && forall i :: 0 <= i < |xs| ==> xs[i] == Parse(Split(s)[i])
  {
    if s == "" then []
    else
      var parts := Split(s);
      seq(|parts|, i requires 0 <= i < |parts| => Parse(parts[i]))
  }

  lemma ListRoundTrip(xs: seq<int>)
    ensures ListTextOk(SerializeList(xs))
    ensures DeserializeList(SerializeList(xs)) == xs
  {
    if xs != [] {
      SplitBuild(ShowAll(xs));
    }
  }

  // ---------------------------------------------------------------------
  // The marks: 25 flags "1" / "0", row-major.

  function Flag(b: bool): string {
    if b then "1" else "0"
  }

  /** `serializeMarked`: 25 fields, "1" or "0" for cell (r, c) at 5r+c. */
  function SerializeMarked(marks: Marks): (s: string)
    requires Is5x5(marks)
    ensures |Split(s)| == 25
    ensures forall r, c :: InGrid(r, c) ==> Split(s)[5 * r + c] == Flag(marks[r][c])
  {
    var parts := seq(25, k requires 0 <= k < 25 => Flag(Flatten(marks)[k]));
    SplitBuild(parts);
    Build(parts)
  }

  /** Texts the marks decoder can read without running past its fields. */
  predicate MarkedTextOk(s: string) {
    s == "" || |Split(s)| >= 25
  }

  /** `deserializeMarked`: an all-false grid for ""; otherwise cell k of the
      row-major order is marked exactly when field k is "1" (any other field
      reads as unmarked). Fewer than 25 fields would index past the end. */
  function DeserializeMarked(s: string): (g: Marks)
    requires MarkedTextOk(s)
    ensures Is5x5(g)
    ensures s == "" ==> g == AllFalse()
    ensures s != "" ==> forall r, c :: InGrid(r, c) ==> (g[r][c] <==> Split(s)[5 * r + c] == "1")
  {
    if s == "" then AllFalse()
    else
      var parts := Split(s);
      var g := Unflatten(seq(25, k requires 0 <= k < 25 => parts[k] == "1"));
      assert forall r, c :: InGrid(r, c) ==> (5 * r + c) / 5 == r && (5 * r + c) % 5 == c;
      g
  }

  lemma MarkedRoundTrip(marks: Marks)
    requires Is5x5(marks)
    ensures MarkedTextOk(SerializeMarked(marks))
    ensures DeserializeMarked(SerializeMarked(marks)) == marks
  {
    var s := SerializeMarked(marks);
    assert s != "" by {
      assert |Split(s)| == 25;
    }
    var d := DeserializeMarked(s);
    forall r, c | InGrid(r, c) ensures d[r][c] == marks[r][c] {
    }
    SameGridEqual(d, marks);
  }
}
