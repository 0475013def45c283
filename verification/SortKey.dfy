// How sort assembles the key of a line from its fields.

/** buildkey, dokey_ and dokey_r of sort.c: no key of one run is a proper prefix of another. */
module SortKey {
  import opened Basics
  import opened Order
  import opened SortCompare
  import opened SortNumber
  import opened SortScan

  /** How a field is turned into key bytes. */
  datatype Kind = Plain | Numeric(g: bool)

  /** A field: its kind, the r flag, and where it begins and ends in a line (the results of `skip`). */
  datatype Field = Field(kind: Kind, reversed: bool, begin: seq<Byte> -> nat, end: seq<Byte> -> nat)

  /** The options of one run: field 0 is the global one. */
  datatype Options = Options(global: Field, fields: seq<Field>, uflag: bool)

  /** The part of a line a field names; empty if it ends before it begins. */
  function Extract(f: Field, line: seq<Byte>): seq<Byte> {
    var i, j := f.begin(line), f.end(line);
    if i <= j <= |line| then line[i..j] else []
  }

  /** The key bytes of one field text. */
  function TextKey(f: Field, text: seq<Byte>): Key {
    match f.kind
    case Numeric(g) => FieldKey(text, g, f.reversed)
    case Plain => if f.reversed then Invert(text) + [255] else text + [0]
  }

  /** The keys of a list of fields, one after the other. */
  function FieldsKey(fs: seq<Field>, line: seq<Byte>): Key {
    if fs == [] then []
    else FieldsKey(fs[..|fs| - 1], line) + TextKey(fs[|fs| - 1], Extract(fs[|fs| - 1], line))
  }

  /** The key of a line: its fields, then the whole line unless -u makes the fields decide alone. */
  function LineKey(o: Options, line: seq<Byte>): Key {
    var k := FieldsKey(o.fields, line);
    if o.uflag && k != [] then k else k + TextKey(o.global, line)
  }

  // ----- assembling -----

  /** dokey_: the text and a zero byte. */
  method Dokey(k: Key, text: seq<Byte>) returns (k': Key)
    ensures k' == k + (text + [0])
  {
    k' := k + text + [0];
  }

  /** dokey_r: the complement of the text, four bytes at a time, and a 255. */
  method DokeyR(k: Key, text: seq<Byte>) returns (k': Key)
    ensures k' == k + (Invert(text) + [255])
  {
    var i := 0;
    k' := k;
    while i + 3 < |text|
      invariant i <= |text|
      invariant k' == k + Invert(text[..i])
    {
      InvertMore(text, i, i + 4);
      var four := [Inverted(text[i]), Inverted(text[i + 1]), Inverted(text[i + 2]), Inverted(text[i + 3])];
      assert Invert(text[i..i + 4]) == four;
      assert k + Invert(text[..i + 4]) == k + Invert(text[..i]) + four;
      k' := k' + four;
      i := i + 4;
    }
    while i < |text|
      invariant i <= |text|
      invariant k' == k + Invert(text[..i])
    {
      InvertMore(text, i, i + 1);
      assert Invert(text[i..i + 1]) == [Inverted(text[i])];
      assert k + Invert(text[..i + 1]) == k + Invert(text[..i]) + [Inverted(text[i])];
      k' := k' + [Inverted(text[i])];
      i := i + 1;
    }
    assert text[..i] == text;
    k' := k' + [255];
  }

  lemma {:induction false} InvertMore(text: seq<Byte>, i: nat, j: nat)
    requires i <= j <= |text|
    ensures Invert(text[..j]) == Invert(text[..i]) + Invert(text[i..j])
  {
    InvertConcat(text[..i], text[i..j]);
    assert text[..j] == text[..i] + text[i..j];
  }

  /** The dokey function of a field. */
  method DokeyField(k: Key, f: Field, text: seq<Byte>) returns (k': Key)
    ensures k' == k + TextKey(f, text)
  {
    match f.kind {
      case Numeric(g) => k' := DokeyGn(k, text, g, f.reversed);
      case Plain =>
        if f.reversed {
          k' := DokeyR(k, text);
        } else {
          k' := Dokey(k, text);
        }
    }
  }

  /** buildkey, on the line without its newline. */
  method BuildKey(o: Options, line: seq<Byte>) returns (k: Key)
    ensures k == LineKey(o, line)
  {
    hide TextKey, Extract;
    k := [];
    for i := 0 to |o.fields|
      invariant k == FieldsKey(o.fields[..i], line)
    {
      var f := o.fields[i];
      assert o.fields[..i + 1][..i] == o.fields[..i];
      k := DokeyField(k, f, Extract(f, line));
    }
    assert o.fields[..|o.fields|] == o.fields;
    if !(o.uflag && |k| > 0) {
      k := DokeyField(k, o.global, line);
    }
  }

  // ----- no key is a proper prefix of another -----

  predicate NoNul(s: seq<Byte>) {
    0 !in s
  }

  /** A text whose key cannot be confused: of a number, or without a NUL. */
  predicate Clean(f: Field, text: seq<Byte>) {
    f.kind.Numeric? || NoNul(text)
  }

  /** A line whose texts are clean, as far as its key is made of them. */
  predicate CleanLine(o: Options, line: seq<Byte>) {
    && (forall i :: 0 <= i < |o.fields| ==> Clean(o.fields[i], Extract(o.fields[i], line)))
    && ((o.uflag && o.fields != []) || Clean(o.global, line))
  }

  lemma {:induction false} NoNulIsClean(o: Options, line: seq<Byte>)
    requires NoNul(line)
    ensures CleanLine(o, line)
  {
    forall i | 0 <= i < |o.fields|
      ensures Clean(o.fields[i], Extract(o.fields[i], line))
    {
      ExtractNoNul(o.fields[i], line);
    }
  }

  lemma {:induction false} TextKeysPrefixFree(f: Field, s: seq<Byte>, t: seq<Byte>)
    requires Clean(f, s) && Clean(f, t)
    ensures PrefixFree(TextKey(f, s), TextKey(f, t))
  {
    match f.kind
    case Numeric(g) => NumberKeysPrefixFree(Normal(s, g), Normal(t, g), f.reversed);
    case Plain =>
      if f.reversed {
        TerminatedPrefixFree(Invert(s), Invert(t), 255);
      } else {
        TerminatedPrefixFree(s, t, 0);
      }
  }

  /** The part of a text before its first NUL. */
  function UpToNul(s: seq<Byte>): (t: seq<Byte>)
    ensures NoNul(t) && |t| <= |s| && t == s[..|t|]
    ensures !NoNul(s) ==> |t| < |s| && s[|t|] == 0
  {
    if s == [] || s[0] == 0 then [] else [s[0]] + UpToNul(s[1..])
  }

  /** The key of a text with a NUL has the key of the part before it as a proper prefix. */
  lemma {:induction false} NulConfuses(f: Field, s: seq<Byte>)
    requires f.kind.Plain? && !NoNul(s)
    ensures !PrefixFree(TextKey(f, UpToNul(s)), TextKey(f, s))
  {
    hide PrefixFree;
    var t := UpToNul(s);
    if f.reversed {
      assert (Invert(s) + [255])[..|t| + 1] == Invert(t) + [255];
      ProperPrefix(Invert(t) + [255], Invert(s) + [255]);
    } else {
      assert (s + [0])[..|t| + 1] == t + [0];
      ProperPrefix(t + [0], s + [0]);
    }
  }

  lemma {:induction false} ProperPrefix(x: Key, y: Key)
    requires |x| < |y| && y[..|x|] == x
    ensures !PrefixFree(x, y)
  {
  }

  /** A key is free of confusion with the keys of all NUL-free texts exactly if its text is clean. */
  lemma {:induction false} TextKeysPrefixFreeExactly(f: Field, s: seq<Byte>)
    ensures (forall t | NoNul(t) :: PrefixFree(TextKey(f, s), TextKey(f, t))) <==> Clean(f, s)
  {
    hide TextKey;
    if Clean(f, s) {
      forall t | NoNul(t)
        ensures PrefixFree(TextKey(f, s), TextKey(f, t))
      {
        TextKeysPrefixFree(f, s, t);
      }
    } else {
      NulConfuses(f, s);
      assert NoNul(UpToNul(s));
    }
  }

  lemma {:induction false} TextKeyNotEmpty(f: Field, s: seq<Byte>)
    ensures TextKey(f, s) != []
  {
  }

  lemma {:induction false} ExtractNoNul(f: Field, line: seq<Byte>)
    requires NoNul(line)
    ensures NoNul(Extract(f, line))
  {
  }

  lemma {:induction false} FieldsKeysPrefixFree(fs: seq<Field>, s: seq<Byte>, t: seq<Byte>)
    requires forall i :: 0 <= i < |fs| ==> Clean(fs[i], Extract(fs[i], s)) && Clean(fs[i], Extract(fs[i], t))
    ensures PrefixFree(FieldsKey(fs, s), FieldsKey(fs, t))
    ensures FieldsKey(fs, s) == [] <==> fs == []
  {
    if fs != [] {
      var n := |fs| - 1;
      var f := fs[n];
      FieldsKeysPrefixFree(fs[..n], s, t);
      TextKeysPrefixFree(f, Extract(f, s), Extract(f, t));
      TextKeyNotEmpty(f, Extract(f, s));
      KcmpConcat(FieldsKey(fs[..n], s), FieldsKey(fs[..n], t),
                 TextKey(f, Extract(f, s)), TextKey(f, Extract(f, t)));
    }
  }

  /** The keys of any two lines of a run, both clean, are prefix-free. */
  lemma {:induction false} LineKeysPrefixFree(o: Options, s: seq<Byte>, t: seq<Byte>)
    requires CleanLine(o, s) && CleanLine(o, t)
    ensures PrefixFree(LineKey(o, s), LineKey(o, t))
  {
    hide TextKey, Extract, FieldsKey, Clean;
    FieldsKeysPrefixFree(o.fields, s, t);
    FieldsKeysPrefixFree(o.fields, t, s);
    if o.uflag && o.fields != [] {
      return;
    }
    TextKeysPrefixFree(o.global, s, t);
    KcmpConcat(FieldsKey(o.fields, s), FieldsKey(o.fields, t), TextKey(o.global, s), TextKey(o.global, t));
  }

  /** So on them `kcmp` is dictionary order, a total preorder. */
  lemma {:induction false} LineKeysOrdered(o: Options, s: seq<Byte>, t: seq<Byte>, u: seq<Byte>)
    requires CleanLine(o, s) && CleanLine(o, t) && CleanLine(o, u)
    ensures Sign(Kcmp(LineKey(o, s), LineKey(o, t))) == Compare(LineKey(o, s), LineKey(o, t))
    ensures Kcmp(LineKey(o, s), LineKey(o, t)) == 0 <==> LineKey(o, s) == LineKey(o, t)
    ensures Kcmp(LineKey(o, s), LineKey(o, t)) <= 0 && Kcmp(LineKey(o, t), LineKey(o, u)) <= 0
            ==> Kcmp(LineKey(o, s), LineKey(o, u)) <= 0
  {
    var x, y, z := LineKey(o, s), LineKey(o, t), LineKey(o, u);
    LineKeysPrefixFree(o, s, t);
    LineKeysPrefixFree(o, t, u);
    LineKeysPrefixFree(o, s, u);
    KcmpIsCompare(x, y);
    KcmpIsCompare(y, z);
    KcmpIsCompare(x, z);
    if Compare(x, y) <= 0 && Compare(y, z) <= 0 {
      CompareTransitive(x, y, z);
    }
  }

  /**
   * The author's note on 00 bytes, made exact for a run without fields: the key of a line is free of confusion with
   * those of all NUL-free lines if and only if the line is clean.
   */
  lemma {:induction false} NulBreaksPrefixFree(o: Options, s: seq<Byte>)
    requires o.fields == []
    ensures (forall t | NoNul(t) :: PrefixFree(LineKey(o, s), LineKey(o, t))) <==> CleanLine(o, s)
    ensures !CleanLine(o, s) ==> LineKey(o, UpToNul(s)) != LineKey(o, s) && Kcmp(LineKey(o, UpToNul(s)), LineKey(o, s)) == 0
  {
    assert forall t :: LineKey(o, t) == TextKey(o.global, t);
    TextKeysPrefixFreeExactly(o.global, s);
    if !CleanLine(o, s) {
      NulConfuses(o.global, s);
    }
  }

  // ----- the order of lines -----

  /** Keys of plain texts compare as the texts do in a dictionary, the other way round under r. */
  lemma {:induction false} PlainOrder(f: Field, x: seq<Byte>, y: seq<Byte>)
    requires f.kind.Plain? && NoNul(x) && NoNul(y)
    ensures Sign(Kcmp(TextKey(f, x), TextKey(f, y))) == if f.reversed then Compare(y, x) else Compare(x, y)
  {
    EndedOrder(x, y);
    if f.reversed {
      EndedOrder(y, x);
      InvertConcat(x, [0]);
      InvertConcat(y, [0]);
      assert Invert([0]) == [255];
      KcmpInvert(x + [0], y + [0]);
    }
  }

  lemma {:induction false} EndedOrder(x: seq<Byte>, y: seq<Byte>)
    requires NoNul(x) && NoNul(y)
    ensures Sign(Kcmp(x + [0], y + [0])) == Compare(x, y)
  {
    var n := Common(x, y);
    if n == |x| == |y| {
      assert x == x[..n] == y[..n] == y;
    } else {
      assert (x + [0])[..n] == x[..n] == y[..n] == (y + [0])[..n];
      assert n < |x| ==> x[n] in x;
      assert n < |y| ==> y[n] in y;
      CommonIs(x + [0], y + [0], n);
    }
  }

  /** How one field orders two texts, said of the texts: as strings, or as the numbers they denote. */
  function FieldOrder(f: Field, x: seq<Byte>, y: seq<Byte>): int {
    var c := match f.kind
             case Plain => Compare(x, y)
             case Numeric(g) => RealSign(Value(x, g) - Value(y, g));
    if f.reversed then -c else c
  }

  /** How the fields order two lines: the first that tells them apart decides. */
  function FieldsOrder(fs: seq<Field>, s: seq<Byte>, t: seq<Byte>): int {
    if fs == [] then 0 else
    var n := |fs| - 1;
    var c := FieldsOrder(fs[..n], s, t);
    if c != 0 then c else FieldOrder(fs[n], Extract(fs[n], s), Extract(fs[n], t))
  }

  /** How a run orders two lines: by its fields, then, but not under -u with fields, by the whole lines. */
  function LinesOrder(o: Options, s: seq<Byte>, t: seq<Byte>): int {
    var c := FieldsOrder(o.fields, s, t);
    if c != 0 || (o.uflag && o.fields != []) then c else FieldOrder(o.global, s, t)
  }

  /** A text the field can order: without a NUL, or a number whose point fits its two bytes. */
  predicate Sortable(f: Field, text: seq<Byte>) {
    match f.kind
    case Plain => NoNul(text)
    case Numeric(g) => PointFits(text, g)
  }

  predicate SortableLine(o: Options, line: seq<Byte>) {
    && (forall i :: 0 <= i < |o.fields| ==> Sortable(o.fields[i], Extract(o.fields[i], line)))
    && ((o.uflag && o.fields != []) || Sortable(o.global, line))
  }

  lemma {:induction false} FieldOrdered(f: Field, x: seq<Byte>, y: seq<Byte>)
    requires Sortable(f, x) && Sortable(f, y)
    ensures Sign(Kcmp(TextKey(f, x), TextKey(f, y))) == FieldOrder(f, x, y)
    ensures PrefixFree(TextKey(f, x), TextKey(f, y))
  {
    hide Value, FieldKey, Compare, Kcmp, Normal;
    TextKeysPrefixFree(f, x, y);
    match f.kind
    case Plain =>
      PlainOrder(f, x, y);
      CompareAntisymmetric(x, y);
    case Numeric(g) =>
      NumericOrder(x, y, g, f.reversed);
  }

  lemma {:induction false} SignOfConcat(a: Key, b: Key, x: Key, y: Key)
    requires PrefixFree(a, b) && PrefixFree(x, y)
    ensures Sign(Kcmp(a + x, b + y)) == if Sign(Kcmp(a, b)) != 0 then Sign(Kcmp(a, b)) else Sign(Kcmp(x, y))
    ensures PrefixFree(a + x, b + y)
  {
    KcmpConcat(a, b, x, y);
  }

  lemma {:induction false} FieldsOrdered(fs: seq<Field>, s: seq<Byte>, t: seq<Byte>)
    requires forall i :: 0 <= i < |fs| ==> Sortable(fs[i], Extract(fs[i], s)) && Sortable(fs[i], Extract(fs[i], t))
    ensures Sign(Kcmp(FieldsKey(fs, s), FieldsKey(fs, t))) == FieldsOrder(fs, s, t)
    ensures PrefixFree(FieldsKey(fs, s), FieldsKey(fs, t))
  {
    hide TextKey, Extract, FieldOrder, Sortable, Kcmp;
    if fs == [] {
      EmptyKeys();
    } else {
      var n := |fs| - 1;
      var f := fs[n];
      FieldsOrdered(fs[..n], s, t);
      FieldOrdered(f, Extract(f, s), Extract(f, t));
      SignOfConcat(FieldsKey(fs[..n], s), FieldsKey(fs[..n], t), TextKey(f, Extract(f, s)), TextKey(f, Extract(f, t)));
    }
  }

  lemma {:induction false} EmptyKeys()
    ensures Kcmp([], []) == 0
  {
  }

  /** kcmp on the keys of two lines is the order of the lines, field by field. */
  lemma {:induction false} KeysOrderLines(o: Options, s: seq<Byte>, t: seq<Byte>)
    requires SortableLine(o, s) && SortableLine(o, t)
    ensures Sign(Kcmp(LineKey(o, s), LineKey(o, t))) == LinesOrder(o, s, t)
  {
    hide TextKey, Extract, FieldOrder, Sortable, Kcmp, FieldsKey, FieldsOrder;
    FieldsOrdered(o.fields, s, t);
    FieldsKeyEmpty(o.fields, s);
    FieldsKeyEmpty(o.fields, t);
    if o.uflag && o.fields != [] {
      return;
    }
    NoFieldsOrder(s, t);
    FieldOrdered(o.global, s, t);
    SignOfConcat(FieldsKey(o.fields, s), FieldsKey(o.fields, t), TextKey(o.global, s), TextKey(o.global, t));
  }

  lemma {:induction false} NoFieldsOrder(s: seq<Byte>, t: seq<Byte>)
    ensures FieldsOrder([], s, t) == 0
  {
  }

  lemma {:induction false} FieldsKeyEmpty(fs: seq<Field>, s: seq<Byte>)
    ensures FieldsKey(fs, s) == [] <==> fs == []
  {
    if fs != [] {
      TextKeyNotEmpty(fs[|fs| - 1], Extract(fs[|fs| - 1], s));
    }
  }

  lemma {:induction false} SortableIsClean(o: Options, line: seq<Byte>)
    requires SortableLine(o, line)
    ensures CleanLine(o, line)
  {
    forall i | 0 <= i < |o.fields|
      ensures Clean(o.fields[i], Extract(o.fields[i], line))
    {
      assert Sortable(o.fields[i], Extract(o.fields[i], line));
    }
  }

  /** A run without fields and without -n orders lines as strings, downwards under -r. */
  lemma {:induction false} WholeLinesOrdered(o: Options, s: seq<Byte>, t: seq<Byte>)
    requires o.fields == [] && o.global.kind.Plain? && NoNul(s) && NoNul(t)
    ensures Sign(Kcmp(LineKey(o, s), LineKey(o, t))) == if o.global.reversed then Compare(t, s) else Compare(s, t)
  {
    hide TextKey;
    PlainOrder(o.global, s, t);
    EmptyFirst(TextKey(o.global, s));
    EmptyFirst(TextKey(o.global, t));
  }

  lemma {:induction false} EmptyFirst(k: Key)
    ensures [] + k == k
  {
  }

  lemma {:induction false} FieldsKeyConcat(a: seq<Field>, b: seq<Field>, s: seq<Byte>)
    ensures FieldsKey(a + b, s) == FieldsKey(a, s) + FieldsKey(b, s)
  {
    hide TextKey, Extract;
    if b == [] {
      assert a + b == a;
    } else {
      var n := |b| - 1;
      FieldsKeyConcat(a, b[..n], s);
      assert (a + b)[..|a + b| - 1] == a + b[..n];
    }
  }

  lemma {:induction false} SameFieldsKey(fs: seq<Field>, s: seq<Byte>, t: seq<Byte>)
    requires forall i :: 0 <= i < |fs| ==> Extract(fs[i], s) == Extract(fs[i], t)
    ensures FieldsKey(fs, s) == FieldsKey(fs, t)
  {
    hide TextKey, Extract;
    if fs != [] {
      SameFieldsKey(fs[..|fs| - 1], s, t);
    }
  }

  lemma {:induction false} LineKeySplit(o: Options, k: nat, s: seq<Byte>) returns (rest: Key)
    requires k < |o.fields|
    ensures LineKey(o, s) == FieldsKey(o.fields[..k], s) + (TextKey(o.fields[k], Extract(o.fields[k], s)) + rest)
  {
    hide TextKey, Extract, FieldsKey;
    var fs := o.fields;
    FieldsKeyConcat(fs[..k] + [fs[k]], fs[k + 1..], s);
    FieldsKeyConcat(fs[..k], [fs[k]], s);
    OneFieldKey(fs[k], s);
    assert fs == fs[..k] + [fs[k]] + fs[k + 1..];
    var x, r := TextKey(fs[k], Extract(fs[k], s)), FieldsKey(fs[k + 1..], s);
    rest := if o.uflag && FieldsKey(fs, s) != [] then r else r + TextKey(o.global, s);
    assert FieldsKey(fs[..k], s) + (x + r) == FieldsKey(fs[..k], s) + x + r;
    assert FieldsKey(fs[..k], s) + (x + (r + TextKey(o.global, s))) == FieldsKey(fs[..k], s) + x + r + TextKey(o.global, s);
  }

  lemma {:induction false} OneFieldKey(f: Field, s: seq<Byte>)
    ensures FieldsKey([f], s) == TextKey(f, Extract(f, s))
  {
    var one := [f];
    assert one[..0] == [] && FieldsKey(one[..0], s) == [];
  }

  lemma {:induction false} Decided(p: Key, x: Key, y: Key, a: Key, b: Key)
    requires PrefixFree(x, y) && x != y
    ensures Kcmp(p + (x + a), p + (y + b)) == Kcmp(x, y)
  {
    KcmpConcat(p, p, x + a, y + b);
    KcmpConcat(x, y, a, b);
  }

  /** Lines with the same texts in the first k fields, and different ones in the next, a plain one, are ordered by those. */
  lemma {:induction false} LinesOrderedByText(o: Options, k: nat, s: seq<Byte>, t: seq<Byte>, x: seq<Byte>, y: seq<Byte>)
    requires k < |o.fields| && o.fields[k].kind.Plain? && NoNul(x) && NoNul(y) && x != y
    requires forall i :: 0 <= i < k ==> Extract(o.fields[i], s) == Extract(o.fields[i], t)
    requires var f := o.fields[k];
             && x == (if f.begin(s) <= f.end(s) <= |s| then s[f.begin(s)..f.end(s)] else [])
             && y == (if f.begin(t) <= f.end(t) <= |t| then t[f.begin(t)..f.end(t)] else [])
    ensures Sign(Kcmp(LineKey(o, s), LineKey(o, t))) == if o.fields[k].reversed then Compare(y, x) else Compare(x, y)
  {
    hide TextKey, LineKey, Kcmp, FieldsKey;
    var f := o.fields[k];
    var a := LineKeySplit(o, k, s);
    var b := LineKeySplit(o, k, t);
    SameFieldsKey(o.fields[..k], s, t);
    PlainOrder(f, x, y);
    TextsApart(f, x, y);
    TextKeysPrefixFree(f, x, y);
    Decided(FieldsKey(o.fields[..k], s), TextKey(f, x), TextKey(f, y), a, b);
  }

  /** Lines with the same texts in all fields are alike under -u, and otherwise ordered as whole lines. */
  lemma {:induction false} TiesBroken(o: Options, s: seq<Byte>, t: seq<Byte>)
    requires o.fields != [] && forall i :: 0 <= i < |o.fields| ==> Extract(o.fields[i], s) == Extract(o.fields[i], t)
    ensures o.uflag ==> LineKey(o, s) == LineKey(o, t)
    ensures !o.uflag && o.global.kind.Plain? && NoNul(s) && NoNul(t) ==>
              Sign(Kcmp(LineKey(o, s), LineKey(o, t))) == if o.global.reversed then Compare(t, s) else Compare(s, t)
  {
    hide TextKey, Extract, Kcmp, FieldsKey;
    SameFieldsKey(o.fields, s, t);
    FieldsKeyEmpty(o.fields, s);
    if !o.uflag && o.global.kind.Plain? && NoNul(s) && NoNul(t) {
      PlainOrder(o.global, s, t);
      KcmpConcat(FieldsKey(o.fields, s), FieldsKey(o.fields, t), TextKey(o.global, s), TextKey(o.global, t));
    }
  }

  lemma {:induction false} TextsApart(f: Field, x: seq<Byte>, y: seq<Byte>)
    requires f.kind.Plain? && NoNul(x) && NoNul(y) && x != y
    ensures TextKey(f, x) != TextKey(f, y)
  {
    PlainOrder(f, x, y);
    CompareAntisymmetric(x, y);
    EqualKeys(TextKey(f, x));
  }

  lemma {:induction false} EqualKeys(k: Key)
    ensures Kcmp(k, k) == 0
  {
    CommonIs(k, k, |k|);
  }

  /** The first field of the options decides the order of two lines with different keys there. */
  lemma {:induction false} FirstFieldDecides(o: Options, s: seq<Byte>, t: seq<Byte>)
    requires CleanLine(o, s) && CleanLine(o, t) && o.fields != []
    requires TextKey(o.fields[0], Extract(o.fields[0], s)) != TextKey(o.fields[0], Extract(o.fields[0], t))
    ensures Kcmp(LineKey(o, s), LineKey(o, t))
         == Kcmp(TextKey(o.fields[0], Extract(o.fields[0], s)), TextKey(o.fields[0], Extract(o.fields[0], t)))
  {
    hide TextKey, Extract, FieldsKey, Clean;
    FieldsKeysPrefixFree(o.fields, s, t);
    FieldsKeysPrefixFree(o.fields, t, s);
    FirstOfFieldsDecides(o.fields, s, t);
    KcmpConcat(FieldsKey(o.fields, s), FieldsKey(o.fields, t), TextKey(o.global, s), TextKey(o.global, t));
  }

  lemma {:induction false} FirstOfFieldsDecides(fs: seq<Field>, s: seq<Byte>, t: seq<Byte>)
    requires fs != []
    requires forall i :: 0 <= i < |fs| ==> Clean(fs[i], Extract(fs[i], s)) && Clean(fs[i], Extract(fs[i], t))
    requires TextKey(fs[0], Extract(fs[0], s)) != TextKey(fs[0], Extract(fs[0], t))
    ensures FieldsKey(fs, s) != FieldsKey(fs, t)
    ensures Kcmp(FieldsKey(fs, s), FieldsKey(fs, t))
         == Kcmp(TextKey(fs[0], Extract(fs[0], s)), TextKey(fs[0], Extract(fs[0], t)))
  {
    hide TextKey, Extract, Clean, Kcmp, PrefixFree;
    var n := |fs| - 1;
    var f := fs[n];
    var x, y := TextKey(f, Extract(f, s)), TextKey(f, Extract(f, t));
    TextKeysPrefixFree(f, Extract(f, s), Extract(f, t));
    if n == 0 {
      assert FieldsKey(fs[..n], s) == [] && FieldsKey(fs[..n], t) == [];
      assert FieldsKey(fs, s) == x;
      assert FieldsKey(fs, t) == y;
    } else {
      assert fs[..n][0] == fs[0];
      FirstOfFieldsDecides(fs[..n], s, t);
      FieldsKeysPrefixFree(fs[..n], s, t);
      StillDecided(FieldsKey(fs[..n], s), FieldsKey(fs[..n], t), x, y);
    }
  }

  lemma {:induction false} StillDecided(a: Key, b: Key, x: Key, y: Key)
    requires PrefixFree(a, b) && a != b
    ensures Kcmp(a + x, b + y) == Kcmp(a, b) && a + x != b + y
  {
    KcmpConcat(a, b, x, y);
    EqualKeys(a + x);
  }

  /** With a numeric first field, lines with different numbers there are ordered by those numbers. */
  lemma {:induction false} LinesOrderedByNumber(o: Options, s: seq<Byte>, t: seq<Byte>)
    requires CleanLine(o, s) && CleanLine(o, t) && o.fields != [] && o.fields[0].kind.Numeric?
    requires var f := o.fields[0];
             && PointFits(Extract(f, s), f.kind.g) && PointFits(Extract(f, t), f.kind.g)
             && Value(Extract(f, s), f.kind.g) < Value(Extract(f, t), f.kind.g)
    ensures if o.fields[0].reversed then Kcmp(LineKey(o, s), LineKey(o, t)) > 0
            else Kcmp(LineKey(o, s), LineKey(o, t)) < 0
  {
    hide Value, FieldKey, LineKey, Normal, CleanLine;
    var f := o.fields[0];
    NumericOrder(Extract(f, s), Extract(f, t), f.kind.g, f.reversed);
    FirstFieldDecides(o, s, t);
  }
}
