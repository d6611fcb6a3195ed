/** Order numbering: "CBC" followed by a number left-padded with zeros to at
    least five digits. The next identifier is derived from the latest order's
    identifier by stripping the prefix, parsing the rest and adding one. */
module OrderIds {
  import opened Wrappers
  import opened Strings

  const Prefix: string := "CBC"

  /** The identifier given to the first order of an empty store. */
  const Seed: string := "CBC00202"

  /** The canonical identifier of order number `n`. */
  function FormatOrderId(n: nat): (id: string)
    ensures |id| >= 8 && id[..3] == Prefix
  {
    Prefix + PadStart(Decimal(n), 5, '0')
  }

  /** The identifier `createOrder` assigns, given the identifier of the
      latest order, if any. The suffix goes through `parseInt`: when it does
      not parse, the number is NaN and the text "NaN" is padded instead. */
  function NextOrderId(latest: Option<string>): (id: string)
    ensures latest.None? ==> id == Seed
    ensures |id| >= 8 && id[..3] == Prefix
  {
    match latest
    case None => Seed
    case Some(last) =>
      match ParseInt(ReplaceFirst(last, Prefix, ""))
      case None => Prefix + PadStart("NaN", 5, '0')
      case Some(k) => Prefix + PadStart(IntToString(k + 1), 5, '0')
  }

  /** Reading a canonical identifier back gives its number. */
  lemma FormatRoundTrip(n: nat)
    ensures ParseInt(ReplaceFirst(FormatOrderId(n), Prefix, "")) == Some(n)
  {
    ReplaceLeadingPattern(Prefix, PadStart(Decimal(n), 5, '0'));
    ParsePaddedDecimal(n, 5);
  }

  /** Distinct numbers have distinct identifiers. */
  lemma FormatInjective(n: nat, m: nat)
    requires FormatOrderId(n) == FormatOrderId(m)
    ensures n == m
  {
    FormatRoundTrip(n);
    FormatRoundTrip(m);
  }

  /** The successor of the identifier of order `n` is that of order `n + 1`,
      at every width: padding never truncates. */
  lemma NextOfFormatted(n: nat)
    ensures NextOrderId(Some(FormatOrderId(n))) == FormatOrderId(n + 1)
  {
    FormatRoundTrip(n);
    NextFromSuffix(FormatOrderId(n), n);
  }

  /** The successor is determined by the parsed suffix alone. */
  lemma NextFromSuffix(last: string, k: nat)
    requires ParseInt(ReplaceFirst(last, Prefix, "")) == Some(k)
    ensures NextOrderId(Some(last)) == FormatOrderId(k + 1)
  {
    assert IntToString(k + 1) == Decimal(k + 1);
  }

  lemma Digits20()
    ensures Decimal(20) == "20"
  {
    assert Decimal(2) == "2";
  }

  /** The numerals of the seed and its successor, proved apart so that the
      literal unfolding of `Decimal` stays out of the callers' proofs. */
  lemma Digits202()
    ensures Decimal(202) == "202"
  {
    Digits20();
    assert Decimal(202) == Decimal(20) + [DigitChar(2)];
  }

  lemma Digits203()
    ensures Decimal(203) == "203"
  {
    Digits20();
    assert Decimal(203) == Decimal(20) + [DigitChar(3)];
  }

  lemma PadThreeDigits(d: string)
    requires |d| == 3
    ensures PadStart(d, 5, '0') == "00" + d
  {
    assert Repeat('0', 2) == "00";
  }

  /** The seed is the canonical identifier of order 202. */
  lemma SeedIsFormatted()
    ensures Seed == FormatOrderId(202)
  {
    Digits202();
    PadThreeDigits("202");
  }

  /** The identifiers of a store that started empty and was numbered only
      by `createOrder`, in creation order: order 202, 203, and so on. */
  predicate Canonical(ids: seq<string>) {
    forall i :: 0 <= i < |ids| ==> ids[i] == FormatOrderId(202 + i)
  }

  /** The latest identifier of a sequence in creation order, if any. */
  function LastOf(ids: seq<string>): Option<string> {
    if |ids| == 0 then None else Some(ids[|ids| - 1])
  }

  /** After the canonical identifiers of orders 202 .. 201 + |ids|, the next
      identifier is that of order 202 + |ids|. */
  lemma NextOfCanonical(ids: seq<string>)
    requires Canonical(ids)
    ensures NextOrderId(LastOf(ids)) == FormatOrderId(202 + |ids|)
  {
    if |ids| == 0 {
      SeedIsFormatted();
    } else {
      NextOfFormatted(202 + |ids| - 1);
    }
  }

  lemma CanonicalExtend(ids: seq<string>, id: string)
    requires Canonical(ids) && id == FormatOrderId(202 + |ids|)
    ensures Canonical(ids + [id])
  {
    forall i | 0 <= i < |ids| + 1 ensures (ids + [id])[i] == FormatOrderId(202 + i) {
      if i < |ids| {
        assert (ids + [id])[i] == ids[i];
      }
    }
  }

  /** The identifier `createOrder` assigns next keeps the sequence canonical. */
  lemma CanonicalAppend(ids: seq<string>)
    requires Canonical(ids)
    ensures Canonical(ids + [NextOrderId(LastOf(ids))])
  {
    NextOfCanonical(ids);
    CanonicalExtend(ids, NextOrderId(LastOf(ids)));
  }

  /** The identifier at position `i` of a canonical sequence reads back as
      order number 202 + i. */
  lemma CanonicalReadBack(ids: seq<string>, i: nat)
    requires Canonical(ids) && i < |ids|
    ensures ParseInt(ReplaceFirst(ids[i], Prefix, "")) == Some(202 + i)
  {
    FormatRoundTrip(202 + i);
  }

  /** Two positions of a canonical sequence holding the same identifier
      are the same position. */
  lemma CanonicalPair(ids: seq<string>, i: nat, j: nat)
    requires Canonical(ids) && i < |ids| && j < |ids| && ids[i] == ids[j]
    ensures i == j
  {
    CanonicalReadBack(ids, i);
    CanonicalReadBack(ids, j);
  }

  /** A canonical sequence holds no identifier twice. */
  lemma CanonicalDistinct(ids: seq<string>)
    requires Canonical(ids)
    ensures forall i, j :: 0 <= i < |ids| && 0 <= j < |ids| && ids[i] == ids[j] ==> i == j
  {
    forall i, j | 0 <= i < |ids| && 0 <= j < |ids| && ids[i] == ids[j] ensures i == j {
      CanonicalPair(ids, i, j);
    }
  }

  lemma SeedSuccessorFormatted()
    ensures NextOrderId(Some(Seed)) == FormatOrderId(203)
  {
    SeedIsFormatted();
    NextOfFormatted(202);
  }

  lemma Formatted203()
    ensures FormatOrderId(203) == "CBC00203"
  {
    Digits203();
    PadThreeDigits("203");
  }

  /** A documented successor: CBC00202 is followed by CBC00203. */
  lemma SuccessorOfSeed()
    ensures NextOrderId(Some(Seed)) == "CBC00203"
  {
    SeedSuccessorFormatted();
    Formatted203();
  }

  /** From five digits on, the identifier is the prefix and the digits. */
  lemma FormatAs(n: nat, d: string)
    requires Decimal(n) == d && |d| >= 5
    ensures FormatOrderId(n) == Prefix + d
  {
  }

  /** The numerals of 99999 and 100000, and their prefixed forms, each
      proved apart for the same reason. */
  lemma Digits999()
    ensures Decimal(999) == "999"
  {
    assert Decimal(9) == "9";
    assert Decimal(99) == Decimal(9) + [DigitChar(9)];
    assert Decimal(999) == Decimal(99) + [DigitChar(9)];
  }

  lemma Digits99999()
    ensures Decimal(99999) == "99999"
  {
    Digits999();
    assert Decimal(9999) == Decimal(999) + [DigitChar(9)];
    assert Decimal(99999) == Decimal(9999) + [DigitChar(9)];
  }

  lemma Digits1000()
    ensures Decimal(1000) == "1000"
  {
    assert Decimal(1) == "1";
    assert Decimal(10) == Decimal(1) + [DigitChar(0)];
    assert Decimal(100) == Decimal(10) + [DigitChar(0)];
    assert Decimal(1000) == Decimal(100) + [DigitChar(0)];
  }

  lemma Digits100000()
    ensures Decimal(100000) == "100000"
  {
    Digits1000();
    assert Decimal(10000) == Decimal(1000) + [DigitChar(0)];
    assert Decimal(100000) == Decimal(10000) + [DigitChar(0)];
  }

  lemma Prefixed99999()
    ensures Prefix + "99999" == "CBC99999"
  {
  }

  lemma Prefixed100000()
    ensures Prefix + "100000" == "CBC100000"
  {
  }

  lemma Formatted99999()
    ensures FormatOrderId(99999) == "CBC99999"
  {
    Digits99999();
    FormatAs(99999, "99999");
    Prefixed99999();
  }

  lemma Formatted100000()
    ensures FormatOrderId(100000) == "CBC100000"
  {
    Digits100000();
    FormatAs(100000, "100000");
    Prefixed100000();
  }

  /** A documented successor: CBC99999 is followed by the six-digit
      CBC100000, because padding never truncates. */
  lemma SuccessorGrowsPastFiveDigits(last: string)
    requires last == "CBC99999"
    ensures NextOrderId(Some(last)) == "CBC100000"
  {
    Formatted99999();
    Formatted100000();
    NextOfFormatted(99999);
  }

  lemma NextWhenUnparsable(last: string)
    requires ParseInt(ReplaceFirst(last, Prefix, "")).None?
    ensures NextOrderId(Some(last)) == Prefix + PadStart("NaN", 5, '0')
  {
  }

  lemma PaddedNaN()
    ensures Prefix + PadStart("NaN", 5, '0') == "CBC00NaN"
  {
    PadThreeDigits("NaN");
  }

  /** A latest identifier whose suffix does not parse yields "CBC00NaN". */
  lemma UnparsableSuffix(last: string)
    requires ParseInt(ReplaceFirst(last, Prefix, "")).None?
    ensures NextOrderId(Some(last)) == "CBC00NaN"
  {
    NextWhenUnparsable(last);
    PaddedNaN();
  }
}
