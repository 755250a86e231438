/** Printed JSON trees, and what the scanner finds in them. */
module JsonText {
  import opened Common
  import opened Json

  // ---- trees with the spaces between their tokens ----

  datatype Tree =
    | Obj(fields: Fields, close: nat)
    | Arr(items: Items, close: nat)
    | Str(text: seq<char>)
    | Num(text: seq<char>)
    | Lit(text: seq<char>)

  datatype Fields = NoField | Field(s1: nat, key: seq<char>, s2: nat, s3: nat, value: Tree, s4: nat, rest: Fields)

  datatype Items = NoItem | Item(s1: nat, value: Tree, s2: nat, rest: Items)

  function Sp(n: nat): (r: seq<char>)
    ensures |r| == n
  {
    seq(n, _ => ' ')
  }

  function PrintKey(s1: nat, key: seq<char>): seq<char> {
    Sp(s1) + ['"'] + key + ['"']
  }

  function Print(t: Tree): seq<char>
    decreases t, 0
  {
    match t
    case Obj(fields, close) => ['{'] + PrintFields(fields) + Sp(close) + ['}']
    case Arr(items, close) => ['['] + PrintItems(items) + Sp(close) + [']']
    case Str(text) => ['"'] + text + ['"']
    case Num(text) => text
    case Lit(text) => text
  }

  function PrintFields(f: Fields): seq<char>
    decreases f, 0
  {
    match f
    case NoField => []
    case Field(s1, key, s2, s3, value, s4, rest) =>
      PrintKey(s1, key) + PrintValue(s2, s3, value) + Sp(s4) + (if rest.NoField? then [] else [','] + PrintFields(rest))
  }

  function PrintValue(s2: nat, s3: nat, value: Tree): seq<char>
    decreases value, 1
  {
    Sp(s2) + [':'] + Sp(s3) + Print(value)
  }

  function PrintItems(i: Items): seq<char>
    decreases i, 0
  {
    match i
    case NoItem => []
    case Item(s1, value, s2, rest) =>
      Sp(s1) + Print(value) + Sp(s2) + (if rest.NoItem? then [] else [','] + PrintItems(rest))
  }

  /** What a lookup hands out for a value: its print, without the quotes of a string. */
  function Text(t: Tree): seq<char> {
    if t.Str? then t.text else Print(t)
  }

  // ---- the trees the scanner can read ----

  /** Every quote is escaped and the closing quote is not. */
  predicate QuoteSafe(text: seq<char>) {
    && '\0' !in text
    && (forall i :: 0 <= i < |text| && text[i] == '"' ==> i > 0 && text[i - 1] == '\\')
    && (|text| > 0 ==> text[|text| - 1] != '\\')
  }

  predicate Plain(text: seq<char>) {
    forall c :: c in text ==> c !in {'{', '}', '[', ']', '\0'}
  }

  predicate KeySafe(key: seq<char>) {
    '"' !in key && '\0' !in key
  }

  predicate Number(text: seq<char>) {
    |text| > 0 && text[0] != 'f' && forall c :: c in text ==> NumberChar(c)
  }

  predicate Literal(text: seq<char>) {
    text in {"true", "TRUE", "false", "FALSE", "null", "NULL"}
  }

  /** Readable at any depth: brackets only where they are tokens. */
  predicate Nested(t: Tree) {
    match t
    case Obj(fields, _) => NestedFields(fields)
    case Arr(items, _) => NestedItems(items)
    case Str(text) => QuoteSafe(text) && Plain(text)
    case Num(text) => Number(text)
    case Lit(text) => Literal(text)
  }

  predicate NestedFields(f: Fields) {
    f.Field? ==> KeySafe(f.key) && Plain(f.key) && Nested(f.value) && NestedFields(f.rest)
  }

  predicate NestedItems(i: Items) {
    i.Item? ==> Nested(i.value) && NestedItems(i.rest)
  }

  /** Readable as the fields of the object looked into: its own keys and strings may hold brackets. */
  predicate Readable(f: Fields) {
    f.Field? ==>
      && KeySafe(f.key)
      && (if f.value.Str? then QuoteSafe(f.value.text) else Nested(f.value))
      && Readable(f.rest)
  }

  lemma {:induction false} NestedIsReadable(f: Fields)
    requires NestedFields(f)
    ensures Readable(f)
  {
    if f.Field? {
      NestedIsReadable(f.rest);
    }
  }

  // ---- lookups in the tree itself ----

  function First(f: Fields, key: seq<char>): Option<Tree> {
    if f.NoField? then None else if f.key == key then Some(f.value) else First(f.rest, key)
  }

  /** Where the text of the first value under `key` starts in the printed fields. */
  function Offset(f: Fields, key: seq<char>): nat
    requires First(f, key).Some?
  {
    var lead := f.s1 + |f.key| + 2 + f.s2 + 1 + f.s3;
    if f.key == key then lead + (if f.value.Str? then 1 else 0)
    else lead + |Print(f.value)| + f.s4 + 1 + Offset(f.rest, key)
  }

  // ---- bracket depth ----

  /** The depth after walking over x, or None if some `close` has no partner. */
  function After(x: seq<char>, open: char, close: char, d: nat): Option<nat> {
    if |x| == 0 then Some(d)
    else
      var d' := if x[0] == open then d + 1 else d;
      if x[0] == close then (if d' == 0 then None else After(x[1..], open, close, d' - 1))
      else After(x[1..], open, close, d')
  }

  predicate Brackets(open: char, close: char) {
    (open == '{' && close == '}') || (open == '[' && close == ']')
  }

  lemma {:induction false} AfterJoin(x: seq<char>, y: seq<char>, open: char, close: char, d: nat)
    requires After(x, open, close, d).Some?
    ensures After(x + y, open, close, d) == After(y, open, close, After(x, open, close, d).value)
  {
    if |x| == 0 {
      assert x + y == y;
    } else {
      assert (x + y)[1..] == x[1..] + y;
      var d' := if x[0] == open then d + 1 else d;
      AfterJoin(x[1..], y, open, close, if x[0] == close then d' - 1 else d');
    }
  }

  lemma {:induction false} AfterPlain(x: seq<char>, open: char, close: char, d: nat)
    requires open !in x && close !in x
    ensures After(x, open, close, d) == Some(d)
  {
    if |x| > 0 {
      AfterPlain(x[1..], open, close, d);
    }
  }

  /** Pieces that each return to their depth do so together. */
  lemma LevelJoin(x: seq<char>, y: seq<char>, open: char, close: char, d: nat)
    requires After(x, open, close, d) == Some(d) && After(y, open, close, d) == Some(d)
    ensures After(x + y, open, close, d) == Some(d)
  {
    AfterJoin(x, y, open, close, d);
  }

  lemma LevelWrapped(b: char, x: seq<char>, e: char, open: char, close: char, d: nat)
    requires Brackets(open, close) && Brackets(b, e)
    requires After(x, open, close, d) == Some(d) && After(x, open, close, d + 1) == Some(d + 1)
    ensures After([b] + x + [e], open, close, d) == Some(d)
  {
    var d' := if b == open then d + 1 else d;
    AfterJoin([b], x + [e], open, close, d);
    AfterJoin(x, [e], open, close, d');
    assert [b] + x + [e] == [b] + (x + [e]);
    assert After([b], open, close, d) == Some(d') by { assert [b][1..] == []; }
    assert After([e], open, close, d') == Some(d) by { assert [e][1..] == []; }
  }

  lemma QuotedPlain(text: seq<char>)
    requires Plain(text)
    ensures Plain(['"'] + text + ['"'])
  {
    forall c | c in ['"'] + text + ['"'] ensures c == '"' || c in text {}
  }

  lemma NumberPlain(text: seq<char>)
    requires Number(text)
    ensures Plain(text)
  {
    forall c | c in text ensures c !in {'{', '}', '[', ']', '\0'} {
      assert NumberChar(c);
    }
  }

  lemma LiteralPlain(text: seq<char>)
    requires Literal(text)
    ensures Plain(text)
  {
    forall c | c in text ensures 'A' <= c <= 'z' && c != '[' && c != ']' {}
  }

  lemma LeafPlain(t: Tree)
    requires Nested(t) && !t.Obj? && !t.Arr?
    ensures Plain(Print(t))
  {
    hide Plain, QuoteSafe, Number, Literal;
    match t
    case Str(text) => QuotedPlain(text);
    case Num(text) => NumberPlain(text);
    case Lit(text) => LiteralPlain(text);
  }

  function FieldHead(f: Fields): seq<char>
    requires f.Field?
  {
    PrintKey(f.s1, f.key) + (Sp(f.s2) + [':'] + Sp(f.s3))
  }

  lemma FieldsPrint(f: Fields, c: nat)
    requires f.Field?
    ensures var first := FieldHead(f) + Print(f.value) + Sp(f.s4);
            && (f.rest.NoField? ==> PrintFields(f) + Sp(c) == first + Sp(c))
            && (f.rest.Field? ==> PrintFields(f) + Sp(c) == first + [','] + (PrintFields(f.rest) + Sp(c)))
  {
    hide Print, PrintKey, Sp;
  }

  lemma {:induction false} LevelTree(t: Tree, open: char, close: char, d: nat)
    requires Nested(t) && Brackets(open, close)
    ensures After(Print(t), open, close, d) == Some(d)
    decreases t
  {
    hide After;
    match t
    case Obj(fields, c) =>
      LevelFields(fields, c, open, close, d);
      LevelFields(fields, c, open, close, d + 1);
      LevelWrapped('{', PrintFields(fields) + Sp(c), '}', open, close, d);
      assert Print(t) == ['{'] + (PrintFields(fields) + Sp(c)) + ['}'];
    case Arr(items, c) =>
      LevelItems(items, c, open, close, d);
      LevelItems(items, c, open, close, d + 1);
      LevelWrapped('[', PrintItems(items) + Sp(c), ']', open, close, d);
      assert Print(t) == ['['] + (PrintItems(items) + Sp(c)) + [']'];
    case Str(text) => LeafPlain(t); AfterPlain(Print(t), open, close, d);
    case Num(text) => LeafPlain(t); AfterPlain(Print(t), open, close, d);
    case Lit(text) => LeafPlain(t); AfterPlain(Print(t), open, close, d);
  }

  lemma {:induction false} LevelFields(f: Fields, c: nat, open: char, close: char, d: nat)
    requires NestedFields(f) && Brackets(open, close)
    ensures After(PrintFields(f) + Sp(c), open, close, d) == Some(d)
    decreases f
  {
    hide After;
    AfterPlain(Sp(c), open, close, d);
    if f.Field? {
      var head := FieldHead(f);
      AfterPlain(head, open, close, d);
      LevelTree(f.value, open, close, d);
      LevelJoin(head, Print(f.value), open, close, d);
      var first := head + Print(f.value) + Sp(f.s4);
      AfterPlain(Sp(f.s4), open, close, d);
      LevelJoin(head + Print(f.value), Sp(f.s4), open, close, d);
      FieldsPrint(f, c);
      if f.rest.NoField? {
        LevelJoin(first, Sp(c), open, close, d);
      } else {
        LevelFields(f.rest, c, open, close, d);
        AfterPlain([','], open, close, d);
        LevelJoin(first, [','], open, close, d);
        LevelJoin(first + [','], PrintFields(f.rest) + Sp(c), open, close, d);
      }
    } else {
      assert PrintFields(f) + Sp(c) == Sp(c);
    }
  }

  lemma {:induction false} LevelItems(i: Items, c: nat, open: char, close: char, d: nat)
    requires NestedItems(i) && Brackets(open, close)
    ensures After(PrintItems(i) + Sp(c), open, close, d) == Some(d)
    decreases i
  {
    hide After;
    AfterPlain(Sp(c), open, close, d);
    if i.Item? {
      AfterPlain(Sp(i.s1), open, close, d);
      LevelTree(i.value, open, close, d);
      AfterPlain(Sp(i.s2), open, close, d);
      LevelJoin(Sp(i.s1), Print(i.value), open, close, d);
      LevelJoin(Sp(i.s1) + Print(i.value), Sp(i.s2), open, close, d);
      var first := Sp(i.s1) + Print(i.value) + Sp(i.s2);
      if i.rest.NoItem? {
        assert PrintItems(i) == first;
        LevelJoin(first, Sp(c), open, close, d);
      } else {
        LevelItems(i.rest, c, open, close, d);
        AfterPlain([','], open, close, d);
        LevelJoin(first, [','], open, close, d);
        LevelJoin(first + [','], PrintItems(i.rest) + Sp(c), open, close, d);
        assert PrintItems(i) + Sp(c) == first + [','] + (PrintItems(i.rest) + Sp(c));
      }
    } else {
      assert PrintItems(i) + Sp(c) == Sp(c);
    }
  }

  // ---- the loops over printed pieces ----

  /** The piece x lies at pos. */
  predicate Here(mem: seq<char>, pos: nat, x: seq<char>) {
    pos + |x| <= |mem| && mem[pos..pos + |x|] == x
  }

  lemma HereSplit(mem: seq<char>, pos: nat, x: seq<char>, y: seq<char>)
    requires Here(mem, pos, x + y)
    ensures Here(mem, pos, x) && Here(mem, pos + |x|, y)
  {
    var z := mem[pos..pos + |x + y|];
    assert x == z[..|x|] && y == z[|x|..];
  }

  lemma HereFirst(mem: seq<char>, pos: nat, x: seq<char>)
    requires Here(mem, pos, x) && |x| > 0
    ensures pos < |mem| && mem[pos] == x[0] && Here(mem, pos + 1, x[1..])
  {
    assert x == [x[0]] + x[1..];
    HereSplit(mem, pos, [x[0]], x[1..]);
  }

  lemma HereFour(mem: seq<char>, pos: nat, a: seq<char>, b: seq<char>, c: seq<char>, d: seq<char>)
    requires Here(mem, pos, a + b + c + d)
    ensures Here(mem, pos, a) && Here(mem, pos + |a|, b) && Here(mem, pos + |a| + |b|, c)
    ensures Here(mem, pos + |a| + |b| + |c|, d)
  {
    hide Here;
    HereSplit(mem, pos, a + b + c, d);
    HereSplit(mem, pos, a + b, c);
    HereSplit(mem, pos, a, b);
  }

  lemma {:induction false} SkipSpaces(mem: seq<char>, ch: char, pos: nat, remain: int, n: nat)
    requires ch !in {'\0', ' '}
    requires Here(mem, pos, Sp(n)) && pos + n < |mem| && mem[pos + n] !in {'\0', ' '} && remain > n
    ensures Delimiter(mem, ch, ' ', pos, remain)
         == Cursor(if mem[pos + n] == ch then Some(pos + n) else None, remain - n)
    decreases n
  {
    if n > 0 {
      assert mem[pos] == Sp(n)[0];
      assert Here(mem, pos + 1, Sp(n - 1)) by {
        assert Sp(n) == [' '] + Sp(n - 1);
        HereSplit(mem, pos, [' '], Sp(n - 1));
      }
      SkipSpaces(mem, ch, pos + 1, remain - 1, n - 1);
    }
  }

  lemma {:induction false} SkipKey(mem: seq<char>, pos: nat, remain: int, key: seq<char>)
    requires KeySafe(key) && Here(mem, pos, key + ['"']) && remain > |key|
    ensures Delimiter(mem, '"', '\0', pos, remain) == Cursor(Some(pos + |key|), remain - |key|)
    decreases |key|
  {
    HereSplit(mem, pos, key, ['"']);
    assert mem[pos + |key|] == '"';
    if |key| > 0 {
      assert mem[pos] == key[0];
      assert key + ['"'] == [key[0]] + (key[1..] + ['"']);
      HereSplit(mem, pos, [key[0]], key[1..] + ['"']);
      SkipKey(mem, pos + 1, remain - 1, key[1..]);
    }
  }

  lemma {:induction false} SkipValueSpaces(mem: seq<char>, pos: nat, remain: int, n: nat)
    requires Here(mem, pos, Sp(n)) && pos + n < |mem| && mem[pos + n] != ' ' && remain > n
    ensures Spaces(mem, pos, remain) == Cursor(Some(pos + n), remain - n)
    decreases n
  {
    if n > 0 {
      assert mem[pos] == Sp(n)[0];
      assert Here(mem, pos + 1, Sp(n - 1)) by {
        assert Sp(n) == [' '] + Sp(n - 1);
        HereSplit(mem, pos, [' '], Sp(n - 1));
      }
      SkipValueSpaces(mem, pos + 1, remain - 1, n - 1);
    }
  }

  function OpenOf(kind: Kind): char { if kind.KArray? then '[' else '{' }
  function CloseOf(kind: Kind): char { if kind.KArray? then ']' else '}' }

  /** Over a piece without unpartnered closers the scan only moves and changes depth. */
  lemma {:induction false} WalkBrackets(mem: seq<char>, kind: Kind, pos: nat, depth: nat, remain: int, x: seq<char>)
    requires kind.KArray? || kind.KObject?
    requires 0 < pos && Here(mem, pos, x) && '\0' !in x && remain >= |x|
    requires After(x, OpenOf(kind), CloseOf(kind), depth).Some?
    ensures ElementEnd(mem, kind, pos, depth, remain)
         == ElementEnd(mem, kind, pos + |x|, After(x, OpenOf(kind), CloseOf(kind), depth).value, remain - |x|)
    decreases |x|
  {
    if |x| > 0 {
      hide Here;
      HereFirst(mem, pos, x);
      assert x[0] in x;
      var d' := if x[0] == OpenOf(kind) then depth + 1 else depth;
      WalkBrackets(mem, kind, pos + 1, if x[0] == CloseOf(kind) then d' - 1 else d', remain - 1, x[1..]);
    }
  }

  /** Inside a string no character but the closing quote ends it. */
  lemma {:induction false} WalkString(mem: seq<char>, pos: nat, remain: int, text: seq<char>, i: nat)
    requires QuoteSafe(text) && i <= |text| && 0 < pos && Here(mem, pos, text + ['"']) && mem[pos - 1] != '\\'
    requires remain > |text| - i
    ensures ElementEnd(mem, KString, pos + i, 0, remain) == Cursor(Some(pos + |text|), remain - (|text| - i))
    decreases |text| - i
  {
    HereSplit(mem, pos, text, ['"']);
    assert mem[pos + |text|] == '"';
    if i < |text| {
      assert mem[pos + i] == text[i];
      if i > 0 { assert mem[pos + i - 1] == text[i - 1]; }
      WalkString(mem, pos, remain - 1, text, i + 1);
    } else if i > 0 {
      assert mem[pos + i - 1] == text[i - 1];
    }
  }

  lemma {:induction false} WalkNumber(mem: seq<char>, pos: nat, remain: int, text: seq<char>)
    requires (forall c :: c in text ==> NumberChar(c)) && 0 < pos && Here(mem, pos, text)
    requires pos + |text| < |mem| && mem[pos + |text|] != '\0' && !NumberChar(mem[pos + |text|])
    requires remain > |text|
    ensures ElementEnd(mem, KNumber, pos, 0, remain) == Cursor(Some(pos + |text|), remain - |text|)
    decreases |text|
  {
    if |text| > 0 {
      hide Here;
      HereFirst(mem, pos, text);
      assert text[0] in text;
      WalkNumber(mem, pos + 1, remain - 1, text[1..]);
    }
  }

  // ---- one key, one value ----

  lemma KeyPieces(mem: seq<char>, pos: nat, s1: nat, key: seq<char>)
    requires Here(mem, pos, PrintKey(s1, key))
    ensures Here(mem, pos, Sp(s1)) && mem[pos + s1] == '"' && Here(mem, pos + s1 + 1, key + ['"'])
    ensures mem[pos + s1 + 1..pos + s1 + 1 + |key|] == key
  {
    assert PrintKey(s1, key) == Sp(s1) + (['"'] + (key + ['"']));
    HereSplit(mem, pos, Sp(s1), ['"'] + (key + ['"']));
    HereSplit(mem, pos + s1, ['"'], key + ['"']);
    HereSplit(mem, pos + s1 + 1, key, ['"']);
  }

  lemma KeyAt(mem: seq<char>, pos: nat, remain: int, s1: nat, key: seq<char>)
    requires KeySafe(key) && Here(mem, pos, PrintKey(s1, key)) && remain >= s1 + |key| + 2
    ensures Key(mem, pos, remain)
         == Parsed(Some(Element(pos + s1 + 1, |key|, pos + s1 + 1 + |key|)), remain - s1 - 1 - |key|)
    ensures mem[pos + s1 + 1..pos + s1 + 1 + |key|] == key
  {
    hide Delimiter, PrintKey, KeySafe;
    KeyPieces(mem, pos, s1, key);
    SkipSpaces(mem, '"', pos, remain, s1);
    SkipKey(mem, pos + s1 + 1, remain - s1 - 1, key);
  }

  /** The counter is left one too high after a bracketed value or a string. */
  function Slack(t: Tree): nat {
    if t.Obj? || t.Arr? || t.Str? then 1 else 0
  }

  function KindOfTree(t: Tree): Kind {
    match t
    case Obj(_, _) => KObject
    case Arr(_, _) => KArray
    case Str(_) => KString
    case Num(_) => KNumber
    case Lit(text) => if text in {"null", "NULL"} then KNull else KBoolean
  }

  predicate ReadableValue(t: Tree) {
    if t.Str? then QuoteSafe(t.text) else Nested(t)
  }

  lemma FirstChar(t: Tree)
    requires ReadableValue(t)
    ensures |Print(t)| > 0 && KindOf(Print(t)[0]) == KindOfTree(t) && Print(t)[0] !in {' ', '\0'}
  {
    match t
    case Num(text) => assert text[0] in text;
    case _ =>
  }

  /** The element that a value whose print starts at `at` is read as. */
  function Read(t: Tree, at: nat): Element {
    Element(at + (if t.Str? then 1 else 0), |Text(t)|, at + |Print(t)|)
  }

  lemma {:induction false} TerminatorFree(t: Tree)
    requires Nested(t)
    ensures '\0' !in Print(t)
    decreases t
  {
    match t
    case Obj(fields, _) => TerminatorFreeFields(fields);
    case Arr(items, _) => TerminatorFreeItems(items);
    case _ => LeafPlain(t);
  }

  lemma {:induction false} TerminatorFreeFields(f: Fields)
    requires NestedFields(f)
    ensures '\0' !in PrintFields(f)
    decreases f
  {
    if f.Field? {
      TerminatorFree(f.value);
      TerminatorFreeFields(f.rest);
    }
  }

  lemma {:induction false} TerminatorFreeItems(i: Items)
    requires NestedItems(i)
    ensures '\0' !in PrintItems(i)
    decreases i
  {
    if i.Item? {
      TerminatorFree(i.value);
      TerminatorFreeItems(i.rest);
    }
  }

  lemma EndOfBrackets(mem: seq<char>, kind: Kind, at: nat, remain: int, inner: seq<char>)
    requires kind.KArray? || kind.KObject?
    requires 0 < at && Here(mem, at, [OpenOf(kind)] + inner + [CloseOf(kind)]) && remain > |inner| + 1
    requires '\0' !in inner && After(inner, OpenOf(kind), CloseOf(kind), 0) == Some(0)
    ensures ElementEnd(mem, kind, at + 1, 0, remain - 1) == Cursor(Some(at + 1 + |inner|), remain - 1 - |inner|)
  {
    assert [OpenOf(kind)] + inner + [CloseOf(kind)] == [OpenOf(kind)] + (inner + [CloseOf(kind)]);
    HereSplit(mem, at, [OpenOf(kind)], inner + [CloseOf(kind)]);
    HereSplit(mem, at + 1, inner, [CloseOf(kind)]);
    assert mem[at + 1 + |inner|] == CloseOf(kind);
    WalkBrackets(mem, kind, at + 1, 0, remain - 1, inner);
  }

  lemma EndOfLiteral(mem: seq<char>, at: nat, remain: int, text: seq<char>)
    requires Literal(text) && 0 < at && Here(mem, at, text) && remain > 0
    ensures ElementEnd(mem, KindOfTree(Lit(text)), at, 0, remain) == Cursor(Some(at + |text|), remain - |text|)
  {
    assert mem[at] == text[0];
    assert StartsWith(mem, at, text);
    assert text[0] in {'t', 'T'} ==> !StartsWith(mem, at, "false") && !StartsWith(mem, at, "FALSE") by {
      assert "false"[0] == 'f' && "FALSE"[0] == 'F';
    }
  }

  lemma EndOfObject(mem: seq<char>, at: nat, remain: int, f: Fields, c: nat)
    requires Nested(Obj(f, c)) && 0 < at && Here(mem, at, Print(Obj(f, c))) && remain > |Print(Obj(f, c))|
    ensures ElementEnd(mem, KObject, at + 1, 0, remain - 1)
         == Cursor(Some(at + |Print(Obj(f, c))| - 1), remain - |Print(Obj(f, c))| + 1)
  {
    hide ElementEnd, After;
    LevelFields(f, c, '{', '}', 0);
    TerminatorFree(Obj(f, c));
    assert Print(Obj(f, c)) == ['{'] + (PrintFields(f) + Sp(c)) + ['}'];
    EndOfBrackets(mem, KObject, at, remain, PrintFields(f) + Sp(c));
  }

  lemma EndOfArray(mem: seq<char>, at: nat, remain: int, i: Items, c: nat)
    requires Nested(Arr(i, c)) && 0 < at && Here(mem, at, Print(Arr(i, c))) && remain > |Print(Arr(i, c))|
    ensures ElementEnd(mem, KArray, at + 1, 0, remain - 1)
         == Cursor(Some(at + |Print(Arr(i, c))| - 1), remain - |Print(Arr(i, c))| + 1)
  {
    hide ElementEnd, After;
    LevelItems(i, c, '[', ']', 0);
    TerminatorFree(Arr(i, c));
    assert Print(Arr(i, c)) == ['['] + (PrintItems(i) + Sp(c)) + [']'];
    EndOfBrackets(mem, KArray, at, remain, PrintItems(i) + Sp(c));
  }

  lemma EndOfString(mem: seq<char>, at: nat, remain: int, text: seq<char>)
    requires QuoteSafe(text) && 0 < at && Here(mem, at, Print(Str(text))) && remain > |text| + 2
    ensures ElementEnd(mem, KString, at + 1, 0, remain - 1) == Cursor(Some(at + |text| + 1), remain - |text| - 1)
  {
    assert Print(Str(text)) == ['"'] + (text + ['"']);
    HereSplit(mem, at, ['"'], text + ['"']);
    WalkString(mem, at + 1, remain - 1, text, 0);
  }

  /** The end of a value is found, whatever follows the character after it. */
  lemma EndAt(mem: seq<char>, at: nat, remain: int, t: Tree)
    requires ReadableValue(t) && 0 < at && Here(mem, at, Print(t)) && remain > |Print(t)|
    requires at + |Print(t)| < |mem| && mem[at + |Print(t)|] in {' ', ',', '}'}
    ensures ElementEnd(mem, KindOfTree(t), at + Slack(t), 0, remain - Slack(t))
         == Cursor(Some(at + |Print(t)| - Slack(t)), remain - |Print(t)| + Slack(t))
  {
    hide ElementEnd;
    match t
    case Obj(fields, c) => EndOfObject(mem, at, remain, fields, c);
    case Arr(items, c) => EndOfArray(mem, at, remain, items, c);
    case Str(text) => EndOfString(mem, at, remain, text);
    case Num(text) => WalkNumber(mem, at, remain, text);
    case Lit(text) => EndOfLiteral(mem, at, remain, text);
  }

  lemma ValuePieces(mem: seq<char>, pos: nat, s2: nat, s3: nat, t: Tree)
    requires Here(mem, pos, PrintValue(s2, s3, t))
    ensures Here(mem, pos, Sp(s2)) && mem[pos + s2] == ':' && Here(mem, pos + s2 + 1, Sp(s3))
    ensures Here(mem, pos + s2 + 1 + s3, Print(t))
  {
    hide Print, Here;
    assert PrintValue(s2, s3, t) == Sp(s2) + [':'] + Sp(s3) + Print(t);
    HereFour(mem, pos, Sp(s2), [':'], Sp(s3), Print(t));
    HereFirst(mem, pos + s2, [':']);
  }

  lemma TextLength(t: Tree)
    ensures |Print(t)| == |Text(t)| + if t.Str? then 2 else 0
  {}

  lemma ElementOf(mem: seq<char>, at: nat, remain: int, t: Tree)
    requires ReadableValue(t) && 0 < at && Here(mem, at, Print(t)) && remain > |Print(t)|
    requires at + |Print(t)| < |mem| && mem[at + |Print(t)|] in {' ', ',', '}'}
    ensures ElementAt(mem, at, remain) == Parsed(Some(Read(t, at)), remain - |Print(t)| + Slack(t))
  {
    hide ElementEnd, ReadableValue, Print, Text, Here, KindOf;
    FirstChar(t);
    TextLength(t);
    HereFirst(mem, at, Print(t));
    EndAt(mem, at, remain, t);
  }

  /** A printed value is read as exactly its text; the counter is off by the slack. */
  lemma ValueAt(mem: seq<char>, pos: nat, remain: int, s2: nat, s3: nat, t: Tree)
    requires ReadableValue(t) && Here(mem, pos, PrintValue(s2, s3, t)) && remain > |PrintValue(s2, s3, t)|
    requires pos + |PrintValue(s2, s3, t)| < |mem| && mem[pos + |PrintValue(s2, s3, t)|] in {' ', ',', '}'}
    ensures Value(mem, pos, remain)
         == Parsed(Some(Read(t, pos + s2 + 1 + s3)), remain - |PrintValue(s2, s3, t)| + Slack(t))
  {
    hide ElementAt, Delimiter, Spaces, ReadableValue, Print;
    var at := pos + s2 + 1 + s3;
    ValuePieces(mem, pos, s2, s3, t);
    FirstChar(t);
    assert mem[at] == Print(t)[0];
    SkipSpaces(mem, ':', pos, remain, s2);
    SkipValueSpaces(mem, pos + s2 + 1, remain - s2 - 1, s3);
    ElementOf(mem, at, remain - s2 - 1 - s3, t);
  }

  // ---- the member loop ----

  /** The printed fields up to and including the closing brace. */
  function Body(f: Fields, c: nat): seq<char> {
    PrintFields(f) + Sp(c) + ['}']
  }

  /** What stands behind the value of a field. */
  function Behind(f: Fields, c: nat): seq<char>
    requires f.Field?
  {
    if f.rest.NoField? then Sp(f.s4 + c) + ['}'] else Sp(f.s4) + ([','] + Body(f.rest, c))
  }

  lemma BodyPieces(mem: seq<char>, pos: nat, f: Fields, c: nat)
    requires f.Field? && Here(mem, pos, Body(f, c))
    ensures var k, v := PrintKey(f.s1, f.key), PrintValue(f.s2, f.s3, f.value);
            && Here(mem, pos, k) && Here(mem, pos + |k|, v)
            && Here(mem, pos + |k| + |v|, Behind(f, c))
            && |Body(f, c)| == |k| + |v| + |Behind(f, c)|
  {
    hide PrintKey, PrintValue;
    var k, v := PrintKey(f.s1, f.key), PrintValue(f.s2, f.s3, f.value);
    assert Sp(f.s4 + c) == Sp(f.s4) + Sp(c);
    assert Body(f, c) == k + (v + Behind(f, c));
    HereSplit(mem, pos, k, v + Behind(f, c));
    HereSplit(mem, pos + |k|, v, Behind(f, c));
  }

  /** Spaces, and then what stands there decides. */
  lemma MarkBehind(mem: seq<char>, at: nat, remain: int, n: nat, tail: seq<char>)
    requires |tail| > 0 && Here(mem, at, Sp(n) + tail) && remain > n && tail[0] in {',', '}'}
    ensures Here(mem, at + n, tail) && at < |mem| && mem[at] in {' ', ',', '}'}
    ensures Delimiter(mem, ',', ' ', at, remain)
         == Cursor(if tail[0] == ',' then Some(at + n) else None, remain - n)
  {
    hide Delimiter, Here;
    HereSplit(mem, at, Sp(n), tail);
    HereFirst(mem, at + n, tail);
    if n > 0 {
      HereFirst(mem, at, Sp(n));
    }
    SkipSpaces(mem, ',', at, remain, n);
  }

  /** The delimiter behind a value is a comma exactly when fields follow. */
  lemma CommaBehind(mem: seq<char>, at: nat, remain: int, f: Fields, c: nat)
    requires f.Field? && Here(mem, at, Behind(f, c)) && remain >= |Behind(f, c)|
    ensures at < |mem| && mem[at] in {' ', ',', '}'}
    ensures f.rest.NoField? ==> Delimiter(mem, ',', ' ', at, remain).pos == None
    ensures f.rest.Field? ==> Delimiter(mem, ',', ' ', at, remain) == Cursor(Some(at + f.s4), remain - f.s4)
    ensures f.rest.Field? ==> Here(mem, at + f.s4 + 1, Body(f.rest, c))
  {
    hide Delimiter, Body, Here;
    if f.rest.NoField? {
      MarkBehind(mem, at, remain, f.s4 + c, ['}']);
    } else {
      MarkBehind(mem, at, remain, f.s4, [','] + Body(f.rest, c));
      HereSplit(mem, at + f.s4, [','], Body(f.rest, c));
    }
  }

  /** Where the value of the first field starts, and how many characters stand before it. */
  function Lead(f: Fields): nat
    requires f.Field?
  {
    f.s1 + |f.key| + 2 + f.s2 + 1 + f.s3
  }

  lemma KeyLength(s1: nat, key: seq<char>)
    ensures |PrintKey(s1, key)| == s1 + |key| + 2
  {}

  lemma ValueLength(s2: nat, s3: nat, t: Tree)
    ensures |PrintValue(s2, s3, t)| == s2 + 1 + s3 + |Print(t)|
  {}

  lemma BehindLength(f: Fields, c: nat)
    requires f.Field?
    ensures |Behind(f, c)| == (if f.rest.NoField? then f.s4 + c + 1 else f.s4 + 1 + |Body(f.rest, c)|)
  {}

  /** One turn of the loop, whether or not the key is the one asked for. */
  lemma TurnAt(mem: seq<char>, pos: nat, remain: int, f: Fields, c: nat, key: seq<char>)
    requires f.Field? && Readable(f) && Here(mem, pos, Body(f, c)) && remain >= |Body(f, c)|
    ensures var at := pos + Lead(f) + |Print(f.value)|;
            MemberTurn(mem, pos, remain, key) ==
              if key == f.key then Hit(Read(f.value, pos + Lead(f)))
              else if f.rest.NoField? then Stop
              else Go(at + f.s4 + 1, remain + pos - (at + f.s4 + 1) + Slack(f.value))
  {
    hide Delimiter, Value, Key, Body, Behind, PrintValue, PrintKey, Nested, QuoteSafe, KeySafe, Print, Text, Here;
    var k, v := PrintKey(f.s1, f.key), PrintValue(f.s2, f.s3, f.value);
    KeyLength(f.s1, f.key);
    ValueLength(f.s2, f.s3, f.value);
    BodyPieces(mem, pos, f, c);
    BehindLength(f, c);
    var at := pos + |k| + |v|;
    CommaBehind(mem, at, remain - |k| - |v| + Slack(f.value), f, c);
    KeyAt(mem, pos, remain, f.s1, f.key);
    ValueAt(mem, pos + |k|, remain - |k|, f.s2, f.s3, f.value);
  }

  lemma ValueText(mem: seq<char>, pos: nat, s2: nat, s3: nat, t: Tree)
    requires Here(mem, pos, PrintValue(s2, s3, t))
    ensures Here(mem, Read(t, pos + s2 + 1 + s3).begin, Text(t))
  {
    ValuePieces(mem, pos, s2, s3, t);
    if t.Str? {
      assert Print(t) == ['"'] + (t.text + ['"']);
      HereSplit(mem, pos + s2 + 1 + s3, ['"'], t.text + ['"']);
      HereSplit(mem, pos + s2 + 1 + s3 + 1, t.text, ['"']);
    }
  }

  /** Where the value read stands, and where the turn leaves off. */
  lemma TurnLeaves(mem: seq<char>, pos: nat, f: Fields, c: nat)
    requires f.Field? && Here(mem, pos, Body(f, c))
    ensures Here(mem, Read(f.value, pos + Lead(f)).begin, Text(f.value))
    ensures f.rest.Field? ==>
              var at := pos + Lead(f) + |Print(f.value)|;
              && Here(mem, at + f.s4 + 1, Body(f.rest, c))
              && |Body(f, c)| == at + f.s4 + 1 - pos + |Body(f.rest, c)|
  {
    hide Delimiter, Body, PrintValue, PrintKey, Print, Text, Here;
    var k, v := PrintKey(f.s1, f.key), PrintValue(f.s2, f.s3, f.value);
    KeyLength(f.s1, f.key);
    ValueLength(f.s2, f.s3, f.value);
    BodyPieces(mem, pos, f, c);
    BehindLength(f, c);
    var at := pos + |k| + |v|;
    if f.rest.Field? {
      HereSplit(mem, at, Sp(f.s4), [','] + Body(f.rest, c));
      HereSplit(mem, at + f.s4, [','], Body(f.rest, c));
    }
    ValueText(mem, pos + |k|, f.s2, f.s3, f.value);
  }

  lemma EmptyBody(mem: seq<char>, pos: nat, remain: int, c: nat, key: seq<char>)
    requires Here(mem, pos, Body(NoField, c)) && remain >= |Body(NoField, c)|
    ensures MemberTurn(mem, pos, remain, key) == Stop
  {
    assert Body(NoField, c) == Sp(c) + ['}'];
    HereSplit(mem, pos, Sp(c), ['}']);
    SkipSpaces(mem, '"', pos, remain, c);
  }

  /** The loop hands out the text of the first value under the key, at its place, or nothing when
      there is none; it needs no more of the memory than the printed object. */
  lemma {:induction false} FieldsFound(mem: seq<char>, pos: nat, remain: int, f: Fields, c: nat, key: seq<char>)
    requires Readable(f) && Here(mem, pos, Body(f, c)) && remain >= |Body(f, c)|
    ensures First(f, key).None? ==> Members(mem, pos, remain, key).None?
    ensures First(f, key).Some? ==>
              var r := Members(mem, pos, remain, key);
              && r.Some? && r.value.begin == pos + Offset(f, key)
              && Here(mem, r.value.begin, Text(First(f, key).value)) && r.value.len == |Text(First(f, key).value)|
    decreases f
  {
    hide MemberTurn, Body, Print, Text, Nested, QuoteSafe, KeySafe;
    if f.NoField? {
      EmptyBody(mem, pos, remain, c, key);
    } else {
      TurnAt(mem, pos, remain, f, c, key);
      TurnLeaves(mem, pos, f, c);
      var next := pos + Lead(f) + |Print(f.value)| + f.s4 + 1;
      if f.key != key && f.rest.Field? {
        FieldsFound(mem, next, remain + pos - next + Slack(f.value), f.rest, c, key);
      } else {
        assert f.key != key ==> First(f.rest, key).None?;
      }
    }
  }

  // ---- one level ----

  function Child(t: Tree, key: seq<char>): Option<Tree> {
    if t.Obj? then First(t.fields, key) else None
  }

  /** Where the text of the child starts in the print of an object. */
  function ChildOffset(t: Tree, key: seq<char>): nat
    requires Child(t, key).Some?
  {
    1 + Offset(t.fields, key)
  }

  /** What a path may start from: a readable value, or an object whose own fields are readable. */
  predicate Source(t: Tree) {
    if t.Obj? then Readable(t.fields) else ReadableValue(t)
  }

  /** Whatever surrounds the text: spaces may stand before an object, and the length given may be larger. */
  predicate Given(mem: seq<char>, pos: nat, len: int, spaces: nat, t: Tree) {
    && Here(mem, pos, Sp(spaces) + Text(t))
    && (if t.Obj? then len >= spaces + |Text(t)| else spaces == 0 && len == |Text(t)|)
  }

  lemma ObjectText(f: Fields, c: nat)
    ensures Text(Obj(f, c)) == ['{'] + Body(f, c)
  {}

  lemma ObjectLookup(mem: seq<char>, pos: nat, len: int, spaces: nat, f: Fields, c: nat, key: seq<char>)
    requires Readable(f) && Here(mem, pos, Sp(spaces) + Text(Obj(f, c))) && len >= spaces + |Text(Obj(f, c))|
    ensures ByKey(mem, pos, len, key).Some? <==> First(f, key).Some?
    ensures First(f, key).Some? ==>
              var e := ByKey(mem, pos, len, key).value;
              && e.begin == pos + spaces + 1 + Offset(f, key)
              && Here(mem, e.begin, Text(First(f, key).value)) && e.len == |Text(First(f, key).value)|
  {
    hide Delimiter, Members, Readable, Text, Body;
    ObjectText(f, c);
    HereSplit(mem, pos, Sp(spaces), Text(Obj(f, c)));
    HereSplit(mem, pos + spaces, ['{'], Body(f, c));
    assert mem[pos + spaces] == '{';
    SkipSpaces(mem, '{', pos, len, spaces);
    FieldsFound(mem, pos + spaces + 1, len - spaces - 1, f, c, key);
  }

  /** A skip that succeeds went over spaces only. */
  lemma {:induction false} SkipShape(mem: seq<char>, ch: char, pos: nat, remain: int)
    requires pos <= |mem| && ch != '\0'
    ensures var c := Delimiter(mem, ch, ' ', pos, remain);
            c.pos.Some? ==> c.pos.value < pos + remain && c.remain == remain - (c.pos.value - pos)
    decreases remain
  {
    if remain > 0 && At(mem, pos) == ' ' {
      SkipShape(mem, ch, pos + 1, remain - 1);
    }
  }

  /** The quotes of a string are escaped, so none of them can open a key. */
  lemma {:induction false} NoKeyInString(mem: seq<char>, pos: nat, text: seq<char>, i: nat)
    requires QuoteSafe(text) && Here(mem, pos, text) && 0 < i <= |text| && text[i - 1] != '\\'
    ensures Delimiter(mem, '"', ' ', pos + i, |text| - i).pos.None?
    decreases |text| - i
  {
    if i < |text| {
      assert mem[pos + i] == text[i];
      if text[i] == ' ' {
        NoKeyInString(mem, pos, text, i + 1);
      }
    }
  }

  lemma NoObjectInString(mem: seq<char>, pos: nat, text: seq<char>, key: seq<char>)
    requires QuoteSafe(text) && Here(mem, pos, text)
    ensures ByKey(mem, pos, |text|, key).None?
  {
    hide QuoteSafe, Value;
    var open := Delimiter(mem, '{', ' ', pos, |text|);
    SkipShape(mem, '{', pos, |text|);
    if open.pos.Some? {
      var i := open.pos.value - pos;
      assert text[i] == mem[pos + i];
      NoKeyInString(mem, pos, text, i + 1);
    }
  }

  lemma NoChild(mem: seq<char>, pos: nat, t: Tree, key: seq<char>)
    requires ReadableValue(t) && !t.Obj? && Here(mem, pos, Text(t))
    ensures ByKey(mem, pos, |Text(t)|, key).None?
  {
    if t.Str? {
      NoObjectInString(mem, pos, t.text, key);
    } else {
      FirstChar(t);
      assert mem[pos] == Print(t)[0];
    }
  }

  /** A one-level lookup in a text finds the child's text, at its place, or fails when there is none. */
  lemma ChildFound(mem: seq<char>, pos: nat, len: int, spaces: nat, t: Tree, key: seq<char>)
    requires Source(t) && Given(mem, pos, len, spaces, t)
    ensures ByKey(mem, pos, len, key).Some? <==> Child(t, key).Some?
    ensures Child(t, key).Some? ==>
              var e := ByKey(mem, pos, len, key).value;
              && e.begin == pos + spaces + ChildOffset(t, key)
              && Here(mem, e.begin, Text(Child(t, key).value)) && e.len == |Text(Child(t, key).value)|
  {
    hide ByKey, Text;
    HereSplit(mem, pos, Sp(spaces), Text(t));
    if t.Obj? {
      ObjectLookup(mem, pos, len, spaces, t.fields, t.close, key);
    } else {
      NoChild(mem, pos, t, key);
    }
  }

  // ---- paths ----

  function Join(names: seq<seq<char>>): seq<char>
    requires |names| > 0
  {
    if |names| == 1 then names[0] else names[0] + ['.'] + Join(names[1..])
  }

  predicate DotFree(names: seq<seq<char>>) {
    forall n :: n in names ==> '.' !in n
  }

  /** The value a chain of names leads to. */
  function Descend(t: Tree, names: seq<seq<char>>): Option<Tree>
    decreases |names|
  {
    if |names| == 0 then Some(t)
    else
      var c := Child(t, names[0]);
      if c.None? then None else Descend(c.value, names[1..])
  }

  function DescendOffset(t: Tree, names: seq<seq<char>>): nat
    requires Descend(t, names).Some?
    decreases |names|
  {
    if |names| == 0 then 0
    else ChildOffset(t, names[0]) + DescendOffset(Child(t, names[0]).value, names[1..])
  }

  lemma {:induction false} DotOf(name: seq<char>, rest: seq<char>)
    requires '.' !in name
    ensures Dot(name).None?
    ensures Dot(name + ['.'] + rest) == Some(|name|)
  {
    if |name| > 0 {
      assert (name + ['.'] + rest)[1..] == name[1..] + ['.'] + rest;
      DotOf(name[1..], rest);
    }
  }

  lemma {:induction false} ChildIsReadable(f: Fields, key: seq<char>)
    requires Readable(f) && First(f, key).Some?
    ensures ReadableValue(First(f, key).value) && Source(First(f, key).value)
  {
    if f.key == key {
      if f.value.Obj? { NestedIsReadable(f.value.fields); }
    } else {
      ChildIsReadable(f.rest, key);
    }
  }

  lemma ChildSource(t: Tree, key: seq<char>)
    requires Source(t) && Child(t, key).Some?
    ensures Source(Child(t, key).value)
  {
    ChildIsReadable(t.fields, key);
  }

  /** A dotted path is the composition of one-level lookups: it finds the text the chain of names
      leads to, at its place in the printed tree, and fails when the chain breaks. */
  lemma {:induction false} PathFound(mem: seq<char>, pos: nat, len: int, spaces: nat, t: Tree, names: seq<seq<char>>)
    requires |names| > 0 && DotFree(names)
    requires Source(t) && Given(mem, pos, len, spaces, t)
    ensures ByPath(mem, pos, len, Join(names)).Some? <==> Descend(t, names).Some?
    ensures Descend(t, names).Some? ==>
              var e := ByPath(mem, pos, len, Join(names)).value;
              && e.begin == pos + spaces + DescendOffset(t, names)
              && mem[e.begin..e.begin + e.len] == Text(Descend(t, names).value)
    decreases |names|
  {
    hide ByKey, Text, Source, Child, ChildOffset, Dot;
    assert names[0] in names;
    ChildFound(mem, pos, len, spaces, t, names[0]);
    if |names| == 1 {
      DotOf(names[0], []);
    } else {
      var rest := names[1..];
      DotOf(names[0], Join(rest));
      var path := Join(names);
      assert path[..|names[0]|] == names[0] && path[|names[0]| + 1..] == Join(rest);
      var c := Child(t, names[0]);
      if c.Some? {
        var e := ByKey(mem, pos, len, names[0]).value;
        ChildSource(t, names[0]);
        assert Sp(0) + Text(c.value) == Text(c.value);
        PathFound(mem, e.begin, e.len, 0, c.value, rest);
      }
    }
  }
}
