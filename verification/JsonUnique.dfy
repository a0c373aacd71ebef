/** A JSON text has one parse tree. */
module JsonUnique {
  import opened JsonGrammar
  import opened JsonLexing
  import opened JsonResidual

  lemma {:induction false} ValueUnique(p: Policy, v: Value, y: Bytes, w: Value, z: Bytes)
    requires ValidValue(p, v) && ValidValue(p, w)
    requires EndsValue(y) && EndsValue(z)
    requires SpellValue(v, y) == SpellValue(w, z)
    ensures v == w && y == z
    decreases v
  {
    match v
    case Atom(t) =>
      if t.Numeral? {
        NumberGreedy(t.number, y);
      }
      TokenUnique(p, t, y, w, z);
    case Empty(s, g) =>
      EmptiedValue(p, s, g, y, w, z);
    case Full(s, g, first, rest) =>
      var x := SpellItem(first, SpellTail(s, rest, y));
      ItemStart(p, s, first, 0, {}, SpellTail(s, rest, y));
      TailStart(p, s, rest, 1, Keys(first), y);
      var it, t := OpenedValue(p, s, g, x, w, z);
      TailStart(p, s, t, 1, Keys(it), z);
      ItemUnique(p, s, first, SpellTail(s, rest, y), it, SpellTail(s, t, z), 0, {});
      TailUnique(p, s, rest, y, t, z, 1, Keys(first));
  }

  /** A member followed by what ends its value. */
  lemma {:induction false} ItemUnique(p: Policy, s: Shape, a: Item, x: Bytes, b: Item, x': Bytes, len: nat, keys: set<Text>)
    requires ValidItem(p, s, a, len, keys) && ValidItem(p, s, b, len, keys)
    requires EndsValue(x) && EndsValue(x')
    requires SpellItem(a, x) == SpellItem(b, x')
    ensures a == b && x == x'
    decreases a
  {
    var head := a.head;
    var c := if head.Unlabelled? then [] else SpellQuoted(head.key) + (head.beforeColon + ([COLON] + head.afterColon));
    var va := SpellValue(a.value, x);
    ValueStart(p, a.value, x);
    LabelSpells(head, c, va, a.value, x);
    assert Item(head, a.value) == a;
    LabelUnique(p, s, head, c, va, b, len, keys, x');
    ValueUnique(p, a.value, x, b.value, x');
  }

  lemma {:induction false} TailUnique(p: Policy, s: Shape, t: Tail, y: Bytes, u: Tail, z: Bytes, len: nat, keys: set<Text>)
    requires ValidTail(p, s, t, len, keys) && ValidTail(p, s, u, len, keys)
    requires EndsValue(y) && EndsValue(z)
    requires SpellTail(s, t, y) == SpellTail(s, u, z)
    ensures t == u && y == z
    decreases t
  {
    match t
    case Close(g) =>
      var cy := [CloseByte(s)] + y;
      AfterGap(s, u, g, cy, z);
      GapUnique(g, cy, u.gap, [CloseByte(s)] + z);
      Cancel([CloseByte(s)], y, [CloseByte(s)], z);
    case More(g1, g2, it, rest) =>
      var x := SpellItem(it, SpellTail(s, rest, y));
      var cx := [COMMA] + (g2 + x);
      AfterGap(s, u, g1, cx, z);
      var x' := SpellItem(u.item, SpellTail(s, u.rest, z));
      GapUnique(g1, cx, u.beforeComma, [COMMA] + (u.afterComma + x'));
      Cancel([COMMA], g2 + x, [COMMA], u.afterComma + x');
      ItemStart(p, s, it, len, keys, SpellTail(s, rest, y));
      ItemStart(p, s, u.item, len, keys, SpellTail(s, u.rest, z));
      GapUnique(g2, x, u.afterComma, x');
      TailStart(p, s, rest, len + 1, keys + Keys(it), y);
      TailStart(p, s, u.rest, len + 1, keys + Keys(u.item), z);
      ItemUnique(p, s, it, SpellTail(s, rest, y), u.item, SpellTail(s, u.rest, z), len, keys);
      TailUnique(p, s, rest, y, u.rest, z, len + 1, keys + Keys(it));
  }

  /** Two trees of one text are the same tree. */
  lemma OneTree(p: Policy, b: Bytes, z: Size, lead: Bytes, v: Value, trail: Bytes,
                z': Size, lead': Bytes, v': Value, trail': Bytes)
    requires IsTree(p, b, z, lead, v, trail) && IsTree(p, b, z', lead', v', trail')
    ensures lead == lead' && v == v' && trail == trail' && z == z'
  {
    ValueStart(p, v, trail);
    ValueStart(p, v', trail');
    GapUnique(lead, SpellValue(v, trail), lead', SpellValue(v', trail'));
    ValueUnique(p, v, trail, v', trail');
  }
}
