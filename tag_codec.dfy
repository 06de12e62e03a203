/**
 * The option-value convention of the tag picker: an existing term travels
 * as "cmmnt_tggr-<term_id>", a new tag as its plain name. The server splits
 * the posted tokens into existing term IDs and new tag names.
 */
module TagCodec {
  import opened Php

  /** COMMENT_TAGGER_PREFIX. */
  const Prefix: string := "cmmnt_tggr"

  /** The separator between the prefix and the term ID. */
  const Separator: char := '-'

  /** The option value the picker gives an existing term. */
  function OptionValue(termId: int): string
  {
    Prefix + [Separator] + IntString(termId)
  }

  function OptionValues(termIds: seq<int>): seq<string>
  {
    MapSeq(OptionValue, termIds)
  }

  /** What the server makes of one posted token. */
  datatype Token = Existing(termId: int) | Dropped | NewName(name: string)

  /** `intval` of the second '-'-separated piece, or 0 when there is none. */
  function SegmentId(t: string): (id: int)
    ensures id >= 0
  {
    var parts := Explode(t, Separator);
    if |parts| > 1 then Intval(parts[1]) else 0
  }

  /**
   * One pass of the parse loop: a token containing the prefix anywhere is an
   * existing term, kept only when its ID is not 0; any other token is a new name.
   */
  function Classify(t: string): (r: Token)
    ensures r.NewName? <==> !Contains(t, Prefix)
    ensures r.NewName? ==> r.name == t
    ensures r.Existing? ==> r.termId > 0 && r.termId == SegmentId(t)
    ensures r == Dropped <==> Contains(t, Prefix) && SegmentId(t) == 0
  {
    if Truthy(StrStr(t, Prefix)) then
      var id := SegmentId(t);
      if id != 0 then Existing(id) else Dropped
    else NewName(t)
  }

  /** The IDs the parse loop collects into `$existing_term_ids`, in order. */
  function ExistingIds(tokens: seq<string>): (ids: seq<int>)
    ensures |ids| <= |tokens|
    ensures forall i :: 0 <= i < |ids| ==> ids[i] > 0
    decreases |tokens|
  {
    if tokens == [] then []
    else
      var front := ExistingIds(tokens[..|tokens| - 1]);
      match Classify(tokens[|tokens| - 1])
      case Existing(id) => front + [id]
      case _ => front
  }

  /** The names the parse loop collects into `$new_terms`, in order. */
  function NewNames(tokens: seq<string>): (names: seq<string>)
    ensures |names| <= |tokens|
    decreases |tokens|
  {
    if tokens == [] then []
    else
      var front := NewNames(tokens[..|tokens| - 1]);
      match Classify(tokens[|tokens| - 1])
      case NewName(name) => front + [name]
      case _ => front
  }

  /**
   * The parse loop shared by the front-end save and the AJAX edit handlers:
   * it walks the (already sanitised) tokens once, appending to the two lists.
   */
  method ParseTokens(tokens: seq<string>) returns (existing: seq<int>, names: seq<string>)
    ensures existing == ExistingIds(tokens)
    ensures names == NewNames(tokens)
  {
    existing, names := [], [];
    for i := 0 to |tokens|
      invariant existing == ExistingIds(tokens[..i])
      invariant names == NewNames(tokens[..i])
    {
      assert tokens[..i + 1][..i] == tokens[..i];
      var term := tokens[i];
      if Truthy(StrStr(term, Prefix)) {
        var tmp := Explode(term, Separator);
        var termId := if |tmp| > 1 then Intval(tmp[1]) else 0;
        if termId != 0 {
          existing := existing + [termId];
        }
      } else {
        names := names + [term];
      }
    }
    assert tokens[..|tokens|] == tokens;
  }

  /** The parse is a homomorphism: the two lists of a concatenation are the concatenated lists. */
  lemma {:induction false} ParseAppend(a: seq<string>, b: seq<string>)
    ensures ExistingIds(a + b) == ExistingIds(a) + ExistingIds(b)
    ensures NewNames(a + b) == NewNames(a) + NewNames(b)
    decreases |b|
  {
    if b == [] {
      assert a + b == a;
    } else {
      var b' := b[..|b| - 1];
      assert (a + b)[..|a + b| - 1] == a + b';
      ParseAppend(a, b');
    }
  }

  /** A single token: a prefixed token is never a new name; any other token is one, unchanged. */
  lemma ParseSingle(t: string)
    ensures NewNames([t]) == if Contains(t, Prefix) then [] else [t]
    ensures ExistingIds([t]) == if Contains(t, Prefix) && SegmentId(t) != 0 then [SegmentId(t)] else []
  {
    assert [t][..0] == [];
  }

  /** Every token without the prefix reaches the new-name list, and nothing else does. */
  lemma {:induction false} NewNamesMembers(tokens: seq<string>)
    ensures forall t :: t in NewNames(tokens) <==> t in tokens && !Contains(t, Prefix)
    decreases |tokens|
  {
    if tokens != [] {
      var front, t := tokens[..|tokens| - 1], tokens[|tokens| - 1];
      assert tokens == front + [t];
      NewNamesMembers(front);
    }
  }

  /** The picker's option value for a term decodes back to that term. */
  lemma OptionValueRoundTrip(termId: int)
    requires 0 < termId <= PhpIntMax
    ensures Classify(OptionValue(termId)) == Existing(termId)
  {
    var v := OptionValue(termId);
    var digits := IntString(termId);
    assert OccursAt(v, Prefix, 0);
    assert Separator !in Prefix;
    assert Implode([Separator], [Prefix, digits]) == v;
    ExplodeImplode([Prefix, digits], Separator);
    IntvalOfIntString(termId);
  }

  /**
   * A prefixed token whose ID is a run of digits: an ID in the int range is
   * kept, a larger one that a double still holds becomes the largest int,
   * and one beyond every double (or 0) drops the token.
   */
  lemma ClassifyPrefixedDigits(digits: string)
    requires |digits| >= 1 && AllDigits(digits)
    ensures 0 < DigitsValue(digits) <= PhpIntMax ==>
      Classify(Prefix + [Separator] + digits) == Existing(DigitsValue(digits))
    ensures PhpIntMax < DigitsValue(digits) < DoubleOverflow ==>
      Classify(Prefix + [Separator] + digits) == Existing(PhpIntMax)
    ensures DigitsValue(digits) == 0 || DigitsValue(digits) >= DoubleOverflow ==>
      Classify(Prefix + [Separator] + digits) == Dropped
  {
    PrefixedSegment(digits);
    IntvalOfDigits(digits);
  }

  /** A token made of the prefix, the separator and a piece without a separator. */
  lemma PrefixedSegment(piece: string)
    requires Separator !in piece
    ensures Classify(Prefix + [Separator] + piece) ==
      if Intval(piece) != 0 then Existing(Intval(piece)) else Dropped
  {
    var v := Prefix + [Separator] + piece;
    assert OccursAt(v, Prefix, 0);
    assert Separator !in Prefix;
    assert Implode([Separator], [Prefix, piece]) == v;
    ExplodeImplode([Prefix, piece], Separator);
  }

  /** Posting only picker option values yields exactly those IDs and no new names. */
  lemma {:induction false} ParseOptionValues(termIds: seq<int>)
    requires forall i :: 0 <= i < |termIds| ==> 0 < termIds[i] <= PhpIntMax
    ensures ExistingIds(OptionValues(termIds)) == termIds
    ensures NewNames(OptionValues(termIds)) == []
    decreases |termIds|
  {
    if termIds != [] {
      var front := termIds[..|termIds| - 1];
      var last := termIds[|termIds| - 1];
      assert termIds == front + [last];
      ParseOptionValues(front);
      OptionValuesSnoc(front, last);
      ParseOptionStep(OptionValues(termIds), OptionValues(front), last);
    }
  }

  lemma OptionValuesSnoc(front: seq<int>, last: int)
    ensures OptionValues(front + [last]) == OptionValues(front) + [OptionValue(last)]
  {
    var l, r := OptionValues(front + [last]), OptionValues(front) + [OptionValue(last)];
    forall i | 0 <= i < |l| ensures l[i] == r[i] {
      if i < |front| {
        assert (front + [last])[i] == front[i];
      }
    }
  }

  lemma ParseOptionStep(tokens: seq<string>, front: seq<string>, last: int)
    requires 0 < last <= PhpIntMax
    requires tokens == front + [OptionValue(last)]
    ensures ExistingIds(tokens) == ExistingIds(front) + [last]
    ensures NewNames(tokens) == NewNames(front)
  {
    assert tokens[..|tokens| - 1] == front;
    OptionValueRoundTrip(last);
  }
}
