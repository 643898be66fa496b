/** The ERC-1155 batch builder of the deposit forms: two parallel lists, token ids and
    amounts, that "Add to batch" extends and "Clear batch" empties, each shown as
    `"[" + list.join(',') + "]"`. */
module Erc1155Batch {
  import Decimal

  /** `"[" + xs.join(',') + "]"`. */
  function Bracketed(xs: seq<string>): (s: string)
    ensures |s| >= 2 && s[0] == '[' && s[|s| - 1] == ']'
  {
    "[" + Decimal.Join(xs) + "]"
  }

  /** The entries a bracketed list shows, read back by splitting between the brackets at
      commas. */
  function Entries(s: string): seq<string>
    requires |s| >= 2
  {
    var inner := s[1..|s| - 1];
    if inner == "" then [] else Decimal.Split(inner)
  }

  lemma JoinNotEmpty(xs: seq<string>)
    requires xs != [] && xs[0] != ""
    ensures Decimal.Join(xs) != ""
  {
    if |xs| > 1 {
      assert Decimal.Join(xs) == xs[0] + "," + Decimal.Join(xs[1..]);
    }
  }

  /** A list whose entries are neither empty nor hold a comma is shown so that it reads back
      as itself. */
  lemma EntriesOfBracketed(xs: seq<string>)
    requires forall i :: 0 <= i < |xs| ==> xs[i] != "" && ',' !in xs[i]
    ensures Entries(Bracketed(xs)) == xs
  {
    var s := Bracketed(xs);
    assert s[1..|s| - 1] == Decimal.Join(xs);
    if xs != [] {
      JoinNotEmpty(xs);
      Decimal.JoinSplit(xs);
    }
  }

  /** An empty entry is invisible: a batch of one empty id looks like an empty batch. */
  lemma EmptyEntryHidden()
    ensures Bracketed([""]) == Bracketed([]) == "[]"
  {
  }

  /** The batch being built, the lists kept as the texts of their entries. */
  class Batch {
    var ids: seq<string>
    var amounts: seq<string>
    var idsText: string
    var amountsText: string

    /** The two lists stay the same length, and each text shows its list. */
    ghost predicate Valid()
      reads this
    {
      |ids| == |amounts| && idsText == Bracketed(ids) && amountsText == Bracketed(amounts)
    }

    constructor()
      ensures Valid() && ids == [] && amounts == [] && idsText == "[]" && amountsText == "[]"
    {
      ids := [];
      amounts := [];
      idsText := "[]";
      amountsText := "[]";
    }

    /** `AddTo1155Batch`: the current id and amount pushed onto the two lists, then both
        texts redrawn from the lists. */
    method Add(id: string, amount: string)
      requires Valid()
      modifies this
      ensures Valid()
      ensures ids == old(ids) + [id] && amounts == old(amounts) + [amount]
    {
      ids := ids + [id];
      amounts := amounts + [amount];
      idsText := "[" + Decimal.Join(ids) + "]";
      amountsText := "[" + Decimal.Join(amounts) + "]";
    }

    /** `Clear1155Batch`. */
    method Clear()
      modifies this
      ensures Valid() && ids == [] && amounts == [] && idsText == "[]" && amountsText == "[]"
    {
      idsText := "[]";
      amountsText := "[]";
      ids := [];
      amounts := [];
    }
  }
}
