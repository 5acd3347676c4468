/** The text form keeps the order of the bytes: of two IDs, the one whose
    bytes sort first also has the text that sorts first. With the timestamp
    in the leading bytes, sorting IDs or their text forms sorts them by
    creation second. */
module Order {
  import opened Alphabet
  import opened Codec

  /** `a` sorts before `b` byte by byte: they agree up to some position,
      where `a` holds the smaller byte. */
  predicate BytesBelow(a: Id, b: Id)
  {
    exists i :: 0 <= i < RawLen && (forall j :: 0 <= j < i ==> a[j] == b[j]) && a[i] < b[i]
  }

  /** For texts of equal length, `s` sorts before `t` as JavaScript
      compares strings: they agree up to some position, where `s` holds the
      smaller character. (A proper prefix, which JavaScript also sorts
      first, is not covered; every text form has 20 characters.) */
  predicate TextBelow(s: string, t: string)
  {
    exists k :: 0 <= k < |s| && k < |t| && (forall j :: 0 <= j < k ==> s[j] == t[j]) && s[k] < t[k]
  }

  /** The text form keeps the byte order, both ways: `b` sorts before `b'`
      exactly when `Encode(b)` sorts before `Encode(b')`. */
  lemma EncodeKeepsOrder(b: Id, b': Id)
    ensures BytesBelow(b, b') <==> TextBelow(Encode(b), Encode(b'))
  {
    if BytesBelow(b, b') {
      EncodeBelow(b, b');
    } else if TextBelow(Encode(b), Encode(b')) {
      if b == b' {
        TextAsymmetric(Encode(b), Encode(b'));
      } else {
        BytesTotal(b, b');
        EncodeBelow(b', b);
        TextAsymmetric(Encode(b), Encode(b'));
      }
    }
  }

  /** Of two different IDs, one sorts before the other. */
  lemma BytesTotal(b: Id, b': Id)
    requires b != b'
    ensures BytesBelow(b, b') || BytesBelow(b', b)
  {
    var i := 0;
    while i < RawLen && b[i] == b'[i]
      invariant 0 <= i <= RawLen
      invariant forall j :: 0 <= j < i ==> b[j] == b'[j]
    {
      i := i + 1;
    }
    if i == RawLen {
      SameId(b, b');
    }
  }

  /** No two texts sort before each other. */
  lemma TextAsymmetric(s: string, t: string)
    requires TextBelow(s, t)
    ensures !TextBelow(t, s)
  {
    var k :| 0 <= k < |s| && k < |t| && (forall j :: 0 <= j < k ==> s[j] == t[j]) && s[k] < t[k];
  }

  /** An ID that sorts first has the text that sorts first: the first byte
      where the IDs differ decides the first symbol where their texts
      differ. */
  lemma EncodeBelow(b: Id, b': Id)
    requires BytesBelow(b, b')
    ensures TextBelow(Encode(b), Encode(b'))
  {
    var i :| 0 <= i < RawLen && (forall j :: 0 <= j < i ==> b[j] == b'[j]) && b[i] < b'[i];
    if i == 0 { Byte0Below(b, b'); }
    else if i == 1 { Byte1Below(b, b'); }
    else if i == 2 { Byte2Below(b, b'); }
    else if i == 3 { Byte3Below(b, b'); }
    else if i == 4 { Byte4Below(b, b'); }
    else if i == 5 { Byte5Below(b, b'); }
    else if i == 6 { Byte6Below(b, b'); }
    else if i == 7 { Byte7Below(b, b'); }
    else if i == 8 { Byte8Below(b, b'); }
    else if i == 9 { Byte9Below(b, b'); }
    else if i == 10 { Byte10Below(b, b'); }
    else { Byte11Below(b, b'); }
  }

  /** A larger digit is written as a later symbol. */
  lemma SymbolMonotone(x: Word, y: Word)
    requires x < y < 32
    ensures Symbol(x) < Symbol(y)
  {
    if Symbol(y) < Symbol(x) {
      DigitMonotone(Symbol(y), Symbol(x));
    }
  }

  /** Symbol `k` of the text form compares as digit `k` does. */
  lemma SlotToSymbol(b: Id, b': Id, k: nat)
    requires k < EncodedLen
    ensures EncodeSlot(b, k) < EncodeSlot(b', k) ==> Encode(b)[k] < Encode(b')[k]
    ensures EncodeSlot(b, k) == EncodeSlot(b', k) ==> Encode(b)[k] == Encode(b')[k]
  {
    if EncodeSlot(b, k) < EncodeSlot(b', k) {
      SymbolMonotone(EncodeSlot(b, k), EncodeSlot(b', k));
    }
  }

  /** Digit `k` reads only the bytes that hold its bits, the last of which
      is byte (5k + 4) / 8. */
  lemma SlotDependsOn(b: Id, b': Id, k: nat)
    requires k < EncodedLen
    requires forall m :: 0 <= m < RawLen && 8 * m <= 5 * k + 4 ==> b[m] == b'[m]
    ensures EncodeSlot(b, k) == EncodeSlot(b', k)
  {
  }

  /** IDs that agree before byte `i` have texts that agree before symbol
      8i / 5. */
  lemma SamePrefix(b: Id, b': Id, i: nat)
    requires i <= RawLen && forall m :: 0 <= m < i ==> b[m] == b'[m]
    ensures forall j :: 0 <= j < EncodedLen && 5 * j + 5 <= 8 * i ==> Encode(b)[j] == Encode(b')[j]
  {
    forall j | 0 <= j < EncodedLen && 5 * j + 5 <= 8 * i
      ensures Encode(b)[j] == Encode(b')[j]
    {
      SlotDependsOn(b, b', j);
    }
  }

  /** Texts of IDs that first differ at byte 0: symbols 0 and 1 hold its bits. */
  lemma Byte0Below(b: Id, b': Id)
    requires b[0] < b'[0]
    ensures TextBelow(Encode(b), Encode(b'))
  {
    SamePrefix(b, b', 0);
    SlotToSymbol(b, b', 0);
    SlotToSymbol(b, b', 1);
    if Encode(b)[0] >= Encode(b')[0] {
      assert forall j :: 0 <= j < 1 ==> Encode(b)[j] == Encode(b')[j];
    }
  }

  /** Texts of IDs that first differ at byte 1: symbols 1, 2 and 3 hold its bits. */
  lemma Byte1Below(b: Id, b': Id)
    requires (forall m :: 0 <= m < 1 ==> b[m] == b'[m]) && b[1] < b'[1]
    ensures TextBelow(Encode(b), Encode(b'))
  {
    SamePrefix(b, b', 1);
    SlotToSymbol(b, b', 1);
    SlotToSymbol(b, b', 2);
    SlotToSymbol(b, b', 3);
    if Encode(b)[1] < Encode(b')[1] {
      assert forall j :: 0 <= j < 1 ==> Encode(b)[j] == Encode(b')[j];
    } else if Encode(b)[2] < Encode(b')[2] {
      assert forall j :: 0 <= j < 2 ==> Encode(b)[j] == Encode(b')[j];
    } else {
      assert forall j :: 0 <= j < 3 ==> Encode(b)[j] == Encode(b')[j];
    }
  }

  /** Texts of IDs that first differ at byte 2: symbols 3 and 4 hold its bits. */
  lemma Byte2Below(b: Id, b': Id)
    requires (forall m :: 0 <= m < 2 ==> b[m] == b'[m]) && b[2] < b'[2]
    ensures TextBelow(Encode(b), Encode(b'))
  {
    SamePrefix(b, b', 2);
    SlotToSymbol(b, b', 3);
    SlotToSymbol(b, b', 4);
    if Encode(b)[3] < Encode(b')[3] {
      assert forall j :: 0 <= j < 3 ==> Encode(b)[j] == Encode(b')[j];
    } else {
      assert forall j :: 0 <= j < 4 ==> Encode(b)[j] == Encode(b')[j];
    }
  }

  /** Texts of IDs that first differ at byte 3: symbols 4, 5 and 6 hold its bits. */
  lemma Byte3Below(b: Id, b': Id)
    requires (forall m :: 0 <= m < 3 ==> b[m] == b'[m]) && b[3] < b'[3]
    ensures TextBelow(Encode(b), Encode(b'))
  {
    SamePrefix(b, b', 3);
    SlotToSymbol(b, b', 4);
    SlotToSymbol(b, b', 5);
    SlotToSymbol(b, b', 6);
    if Encode(b)[4] < Encode(b')[4] {
      assert forall j :: 0 <= j < 4 ==> Encode(b)[j] == Encode(b')[j];
    } else if Encode(b)[5] < Encode(b')[5] {
      assert forall j :: 0 <= j < 5 ==> Encode(b)[j] == Encode(b')[j];
    } else {
      assert forall j :: 0 <= j < 6 ==> Encode(b)[j] == Encode(b')[j];
    }
  }

  /** Texts of IDs that first differ at byte 4: symbols 6 and 7 hold its bits. */
  lemma Byte4Below(b: Id, b': Id)
    requires (forall m :: 0 <= m < 4 ==> b[m] == b'[m]) && b[4] < b'[4]
    ensures TextBelow(Encode(b), Encode(b'))
  {
    SamePrefix(b, b', 4);
    SlotToSymbol(b, b', 6);
    SlotToSymbol(b, b', 7);
    if Encode(b)[6] < Encode(b')[6] {
      assert forall j :: 0 <= j < 6 ==> Encode(b)[j] == Encode(b')[j];
    } else {
      assert forall j :: 0 <= j < 7 ==> Encode(b)[j] == Encode(b')[j];
    }
  }

  /** Texts of IDs that first differ at byte 5: symbols 8 and 9 hold its bits. */
  lemma Byte5Below(b: Id, b': Id)
    requires (forall m :: 0 <= m < 5 ==> b[m] == b'[m]) && b[5] < b'[5]
    ensures TextBelow(Encode(b), Encode(b'))
  {
    SamePrefix(b, b', 5);
    SlotToSymbol(b, b', 8);
    SlotToSymbol(b, b', 9);
    if Encode(b)[8] < Encode(b')[8] {
      assert forall j :: 0 <= j < 8 ==> Encode(b)[j] == Encode(b')[j];
    } else {
      assert forall j :: 0 <= j < 9 ==> Encode(b)[j] == Encode(b')[j];
    }
  }

  /** Texts of IDs that first differ at byte 6: symbols 9, 10 and 11 hold its bits. */
  lemma Byte6Below(b: Id, b': Id)
    requires (forall m :: 0 <= m < 6 ==> b[m] == b'[m]) && b[6] < b'[6]
    ensures TextBelow(Encode(b), Encode(b'))
  {
    SamePrefix(b, b', 6);
    SlotToSymbol(b, b', 9);
    SlotToSymbol(b, b', 10);
    SlotToSymbol(b, b', 11);
    if Encode(b)[9] < Encode(b')[9] {
      assert forall j :: 0 <= j < 9 ==> Encode(b)[j] == Encode(b')[j];
    } else if Encode(b)[10] < Encode(b')[10] {
      assert forall j :: 0 <= j < 10 ==> Encode(b)[j] == Encode(b')[j];
    } else {
      assert forall j :: 0 <= j < 11 ==> Encode(b)[j] == Encode(b')[j];
    }
  }

  /** Texts of IDs that first differ at byte 7: symbols 11 and 12 hold its bits. */
  lemma Byte7Below(b: Id, b': Id)
    requires (forall m :: 0 <= m < 7 ==> b[m] == b'[m]) && b[7] < b'[7]
    ensures TextBelow(Encode(b), Encode(b'))
  {
    SamePrefix(b, b', 7);
    SlotToSymbol(b, b', 11);
    SlotToSymbol(b, b', 12);
    if Encode(b)[11] < Encode(b')[11] {
      assert forall j :: 0 <= j < 11 ==> Encode(b)[j] == Encode(b')[j];
    } else {
      assert forall j :: 0 <= j < 12 ==> Encode(b)[j] == Encode(b')[j];
    }
  }

  /** Texts of IDs that first differ at byte 8: symbols 12, 13 and 14 hold its bits. */
  lemma Byte8Below(b: Id, b': Id)
    requires (forall m :: 0 <= m < 8 ==> b[m] == b'[m]) && b[8] < b'[8]
    ensures TextBelow(Encode(b), Encode(b'))
  {
    SamePrefix(b, b', 8);
    SlotToSymbol(b, b', 12);
    SlotToSymbol(b, b', 13);
    SlotToSymbol(b, b', 14);
    if Encode(b)[12] < Encode(b')[12] {
      assert forall j :: 0 <= j < 12 ==> Encode(b)[j] == Encode(b')[j];
    } else if Encode(b)[13] < Encode(b')[13] {
      assert forall j :: 0 <= j < 13 ==> Encode(b)[j] == Encode(b')[j];
    } else {
      assert forall j :: 0 <= j < 14 ==> Encode(b)[j] == Encode(b')[j];
    }
  }

  /** Texts of IDs that first differ at byte 9: symbols 14 and 15 hold its bits. */
  lemma Byte9Below(b: Id, b': Id)
    requires (forall m :: 0 <= m < 9 ==> b[m] == b'[m]) && b[9] < b'[9]
    ensures TextBelow(Encode(b), Encode(b'))
  {
    SamePrefix(b, b', 9);
    SlotToSymbol(b, b', 14);
    SlotToSymbol(b, b', 15);
    if Encode(b)[14] < Encode(b')[14] {
      assert forall j :: 0 <= j < 14 ==> Encode(b)[j] == Encode(b')[j];
    } else {
      assert forall j :: 0 <= j < 15 ==> Encode(b)[j] == Encode(b')[j];
    }
  }

  /** Texts of IDs that first differ at byte 10: symbols 16 and 17 hold its bits. */
  lemma Byte10Below(b: Id, b': Id)
    requires (forall m :: 0 <= m < 10 ==> b[m] == b'[m]) && b[10] < b'[10]
    ensures TextBelow(Encode(b), Encode(b'))
  {
    SamePrefix(b, b', 10);
    SlotToSymbol(b, b', 16);
    SlotToSymbol(b, b', 17);
    if Encode(b)[16] < Encode(b')[16] {
      assert forall j :: 0 <= j < 16 ==> Encode(b)[j] == Encode(b')[j];
    } else {
      assert forall j :: 0 <= j < 17 ==> Encode(b)[j] == Encode(b')[j];
    }
  }

  /** Texts of IDs that first differ at byte 11: symbols 17, 18 and 19 hold its bits. */
  lemma Byte11Below(b: Id, b': Id)
    requires (forall m :: 0 <= m < 11 ==> b[m] == b'[m]) && b[11] < b'[11]
    ensures TextBelow(Encode(b), Encode(b'))
  {
    SamePrefix(b, b', 11);
    SlotToSymbol(b, b', 17);
    SlotToSymbol(b, b', 18);
    SlotToSymbol(b, b', 19);
    if Encode(b)[17] < Encode(b')[17] {
      assert forall j :: 0 <= j < 17 ==> Encode(b)[j] == Encode(b')[j];
    } else if Encode(b)[18] < Encode(b')[18] {
      assert forall j :: 0 <= j < 18 ==> Encode(b)[j] == Encode(b')[j];
    } else {
      assert forall j :: 0 <= j < 19 ==> Encode(b)[j] == Encode(b')[j];
    }
  }
}
