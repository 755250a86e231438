/** The scanner: cursors over a NUL-terminated text and a counter of remaining characters. */
module Json {
  import opened Common

  // ---- what each scanning loop computes ----

  /** The character under a cursor; at the end of the text it is the terminator. */
  function At(mem: seq<char>, pos: nat): char
    requires pos <= |mem|
  {
    if pos < |mem| then mem[pos] else '\0'
  }

  /** A cursor and the counter that goes with it; the cursor is None where the source has NULL. */
  datatype Cursor = Cursor(pos: Option<nat>, remain: int)

  /** Skips `split` characters, or without one everything but `ch`, and wants `ch` next. */
  function Delimiter(mem: seq<char>, ch: char, split: char, pos: nat, remain: int): (c: Cursor)
    requires pos <= |mem| && ch != '\0'
    ensures c.remain <= remain
    ensures c.pos.Some? ==> pos <= c.pos.value < |mem| && mem[c.pos.value] == ch && c.remain > 0
    decreases remain
  {
    if remain <= 0 || At(mem, pos) == '\0' then Cursor(None, remain)
    else if (split == '\0' && At(mem, pos) != ch) || (split != '\0' && At(mem, pos) == split) then
      Delimiter(mem, ch, split, pos + 1, remain - 1)
    else Cursor(if At(mem, pos) == ch then Some(pos) else None, remain)
  }

  datatype Kind = KArray | KObject | KString | KNumber | KBoolean | KNull

  predicate BeginMatched(kind: Kind, c: char) {
    (kind.KArray? && c == '[') || (kind.KObject? && c == '{')
  }

  predicate StartsWith(mem: seq<char>, pos: nat, word: seq<char>) {
    pos + |word| <= |mem| && mem[pos..pos + |word|] == word
  }

  predicate NumberChar(c: char) {
    '0' <= c <= '9' || c == '.' || c == 'f' || c == '-'
  }

  predicate EndMatched(mem: seq<char>, kind: Kind, pos: nat)
    requires 0 < pos < |mem|
  {
    match kind
    case KArray => mem[pos] == ']'
    case KObject => mem[pos] == '}'
    case KString => mem[pos] == '"' && mem[pos - 1] != '\\'
    case KNumber => !NumberChar(mem[pos])
    case KBoolean => true
    case KNull => true
  }

  /** How many characters the matched end takes; negative when a literal is misspelt. */
  function EndOffset(mem: seq<char>, kind: Kind, pos: nat): (n: int)
    ensures n > 0 ==> pos + n <= |mem|
  {
    match kind
    case KBoolean =>
      if StartsWith(mem, pos, "false") || StartsWith(mem, pos, "FALSE") then 5
      else if StartsWith(mem, pos, "true") || StartsWith(mem, pos, "TRUE") then 4
      else -1
    case KNull => if StartsWith(mem, pos, "null") || StartsWith(mem, pos, "NULL") then 4 else -1
    case _ => 0
  }

  /** Finds the end of an element, counting the depth of its own kind of bracket. */
  function ElementEnd(mem: seq<char>, kind: Kind, pos: nat, depth: nat, remain: int): (c: Cursor)
    requires 0 < pos <= |mem|
    ensures c.remain <= remain
    ensures c.pos.Some? ==> pos <= c.pos.value <= |mem|
    ensures c.pos.Some? && kind in {KArray, KObject, KString} ==> c.pos.value < |mem|
    decreases |mem| - pos
  {
    if At(mem, pos) == '\0' || remain <= 0 then Cursor(None, remain)
    else
      var deeper := if BeginMatched(kind, mem[pos]) then depth + 1 else depth;
      if EndMatched(mem, kind, pos) then
        if deeper == 0 then
          var offset := EndOffset(mem, kind, pos);
          if offset < 0 then Cursor(None, remain) else Cursor(Some(pos + offset), remain - offset)
        else ElementEnd(mem, kind, pos + 1, deeper - 1, remain - 1)
      else ElementEnd(mem, kind, pos + 1, deeper, remain - 1)
  }

  datatype Element = Element(begin: nat, len: int, end: nat)

  datatype Parsed = Parsed(element: Option<Element>, remain: int)

  function Key(mem: seq<char>, pos: nat, remain: int): (p: Parsed)
    requires pos <= |mem|
    ensures p.element.Some? ==> p.remain < remain && p.remain > 0
    ensures p.element.Some? ==>
              var e := p.element.value;
              pos < e.begin <= e.end < |mem| && e.len == e.end - e.begin && mem[e.end] == '"'
  {
    var open := Delimiter(mem, '"', ' ', pos, remain);
    if open.pos.None? then Parsed(None, open.remain)
    else
      var close := Delimiter(mem, '"', '\0', open.pos.value + 1, open.remain - 1);
      if close.pos.None? then Parsed(None, close.remain)
      else Parsed(Some(Element(open.pos.value + 1, close.pos.value - (open.pos.value + 1), close.pos.value)), close.remain)
  }

  function KindOf(c: char): Kind {
    match c
    case '[' => KArray
    case '{' => KObject
    case '"' => KString
    case 'T' => KBoolean case 't' => KBoolean case 'F' => KBoolean case 'f' => KBoolean
    case 'N' => KNull case 'n' => KNull
    case _ => KNumber
  }

  /** Skips spaces before a value; None when the counter runs out. */
  function Spaces(mem: seq<char>, pos: nat, remain: int): (c: Cursor)
    requires pos <= |mem|
    ensures c.remain <= remain
    ensures c.pos.Some? ==> pos <= c.pos.value <= |mem| && At(mem, c.pos.value) != ' '
    decreases |mem| - pos
  {
    if At(mem, pos) != ' ' then Cursor(Some(pos), remain)
    else if remain - 1 <= 0 then Cursor(None, remain - 1)
    else Spaces(mem, pos + 1, remain - 1)
  }

  /** The element that starts under a cursor. */
  function ElementAt(mem: seq<char>, at: nat, remain: int): (p: Parsed)
    requires 0 < at <= |mem|
    ensures p.element.Some? ==> p.remain <= remain
    ensures p.element.Some? ==>
              var e := p.element.value;
              at <= e.begin && 0 <= e.len && e.begin + e.len <= e.end <= |mem|
  {
    var kind := KindOf(At(mem, at));
    var opening := if kind in {KArray, KObject, KString} then 1 else 0;
    var closing := if kind in {KArray, KObject} then 1 else 0;
    var end := ElementEnd(mem, kind, at + opening, 0, remain - opening);
    if end.pos.None? then Parsed(None, end.remain)
    else
      var begin := at + opening - closing;
      Parsed(Some(Element(begin, end.pos.value - begin + closing, end.pos.value + opening)), end.remain)
  }

  function Value(mem: seq<char>, pos: nat, remain: int): (p: Parsed)
    requires pos <= |mem|
    ensures p.element.Some? ==> p.remain < remain
    ensures p.element.Some? ==>
              var e := p.element.value;
              pos < e.begin && 0 <= e.len && e.begin + e.len <= e.end <= |mem|
  {
    var colon := Delimiter(mem, ':', ' ', pos, remain);
    if colon.pos.None? then Parsed(None, colon.remain)
    else
      var start := Spaces(mem, colon.pos.value + 1, colon.remain - 1);
      if start.pos.None? then Parsed(None, start.remain)
      else ElementAt(mem, start.pos.value, start.remain)
  }

  /** How one turn of the member loop ends. */
  datatype Turn = Stop | Hit(element: Element) | Go(pos: nat, remain: int)

  function MemberTurn(mem: seq<char>, pos: nat, remain: int, key: seq<char>): (t: Turn)
    requires pos <= |mem|
    ensures t.Hit? ==> 0 <= t.element.len && t.element.begin + t.element.len <= |mem|
    ensures t.Go? ==> t.pos <= |mem| && 0 <= t.remain < remain
  {
    var k := Key(mem, pos, remain);
    if k.element.None? then Stop
    else
      var v := Value(mem, k.element.value.end + 1, k.remain - 1);
      if v.element.None? then Stop
      else
        var next := Delimiter(mem, ',', ' ', v.element.value.end, v.remain);
        if key == mem[k.element.value.begin..k.element.value.end] then Hit(v.element.value)
        else if next.pos.None? then Stop
        else Go(next.pos.value + 1, next.remain - 1)
  }

  function Members(mem: seq<char>, pos: nat, remain: int, key: seq<char>): (r: Option<Element>)
    requires pos <= |mem|
    ensures r.Some? ==> 0 <= r.value.len && r.value.begin + r.value.len <= |mem|
    decreases remain
  {
    match MemberTurn(mem, pos, remain, key)
    case Stop => None
    case Hit(e) => Some(e)
    case Go(pos', remain') => Members(mem, pos', remain', key)
  }

  function ByKey(mem: seq<char>, pos: nat, len: int, key: seq<char>): (r: Option<Element>)
    requires pos <= |mem|
    ensures r.Some? ==> 0 <= r.value.len && r.value.begin + r.value.len <= |mem|
  {
    var open := Delimiter(mem, '{', ' ', pos, len);
    if open.pos.None? then None
    else Members(mem, open.pos.value + 1, open.remain - 1, key)
  }

  /** The index of the first dot of a path. */
  function Dot(path: seq<char>): (i: Option<nat>)
    ensures i.None? ==> '.' !in path
    ensures i.Some? ==> i.value < |path| && path[i.value] == '.' && '.' !in path[..i.value]
  {
    if |path| == 0 then None
    else if path[0] == '.' then Some(0)
    else
      var i := Dot(path[1..]);
      if i.None? then None else Some(i.value + 1)
  }

  /** A dotted path: one lookup a name, each inside the value found before. */
  function ByPath(mem: seq<char>, pos: nat, len: int, path: seq<char>): (r: Option<Element>)
    requires pos <= |mem|
    ensures r.Some? ==> 0 <= r.value.len && r.value.begin + r.value.len <= |mem|
    decreases |path|
  {
    var dot := Dot(path);
    if dot.None? then ByKey(mem, pos, len, path)
    else
      var r := ByKey(mem, pos, len, path[..dot.value]);
      if r.None? then None else ByPath(mem, r.value.begin, r.value.len, path[dot.value + 1..])
  }

  // ---- the scanning code ----

  method FindJsonDelimiter(mem: seq<char>, ch: char, split: char, str: nat, remain_len: int) returns (c: Cursor)
    requires str <= |mem| && ch != '\0'
    ensures c == Delimiter(mem, ch, split, str, remain_len)
  {
    var pos: nat, remain := str, remain_len;
    while remain > 0 && At(mem, pos) != '\0'
      invariant pos <= |mem| && Delimiter(mem, ch, split, pos, remain) == Delimiter(mem, ch, split, str, remain_len)
      decreases remain
    {
      if (split == '\0' && mem[pos] != ch) || (split != '\0' && mem[pos] == split) {
        pos, remain := pos + 1, remain - 1;
        continue;
      }
      return Cursor(if mem[pos] == ch then Some(pos) else None, remain);
    }
    return Cursor(None, remain);
  }

  method FindElementEnd(mem: seq<char>, kind: Kind, str: nat, remain_len: int) returns (c: Cursor)
    requires 0 < str <= |mem|
    ensures c == ElementEnd(mem, kind, str, 0, remain_len)
  {
    var pos: nat, remain, depth := str, remain_len, 0;
    while At(mem, pos) != '\0'
      invariant 0 < pos <= |mem| && 0 <= depth
      invariant ElementEnd(mem, kind, pos, depth, remain) == ElementEnd(mem, kind, str, 0, remain_len)
      decreases |mem| - pos
    {
      if remain <= 0 {
        return Cursor(None, remain);
      }
      if BeginMatched(kind, mem[pos]) {
        depth := depth + 1;
      }
      if EndMatched(mem, kind, pos) {
        if depth == 0 {
          var offset := EndOffset(mem, kind, pos);
          if offset < 0 {
            break;
          }
          return Cursor(Some(pos + offset), remain - offset);
        }
        depth := depth - 1;
      }
      pos, remain := pos + 1, remain - 1;
    }
    return Cursor(None, remain);
  }

  method GetJsonKey(mem: seq<char>, node: nat, remain_len: int) returns (p: Parsed)
    requires node <= |mem|
    ensures p == Key(mem, node, remain_len)
  {
    var open := FindJsonDelimiter(mem, '"', ' ', node, remain_len);
    if open.pos.None? {
      return Parsed(None, open.remain);
    }
    var begin := open.pos.value + 1;
    var close := FindJsonDelimiter(mem, '"', '\0', begin, open.remain - 1);
    if close.pos.None? {
      return Parsed(None, close.remain);
    }
    return Parsed(Some(Element(begin, close.pos.value - begin, close.pos.value)), close.remain);
  }

  /** The second half of GetJsonValue: the value that starts under the cursor. */
  method GetElement(mem: seq<char>, at: nat, remain_len: int) returns (p: Parsed)
    requires 0 < at <= |mem|
    ensures p == ElementAt(mem, at, remain_len)
  {
    hide ElementEnd;
    var begin, remain := at, remain_len;
    var kind := KindOf(At(mem, begin));
    if kind in {KArray, KObject, KString} {
      begin, remain := begin + 1, remain - 1;
    }
    var end := FindElementEnd(mem, kind, begin, remain);
    if end.pos.None? {
      return Parsed(None, end.remain);
    }
    var bracketed := if kind in {KArray, KObject} then 1 else 0;
    var delimited := if kind in {KArray, KObject, KString} then 1 else 0;
    var first := begin - bracketed;
    return Parsed(Some(Element(first, end.pos.value - first + bracketed, end.pos.value + delimited)), end.remain);
  }

  method GetJsonValue(mem: seq<char>, keyEnd: nat, remain_len: int) returns (p: Parsed)
    requires keyEnd <= |mem|
    ensures p == Value(mem, keyEnd, remain_len)
  {
    var colon := FindJsonDelimiter(mem, ':', ' ', keyEnd, remain_len);
    if colon.pos.None? {
      return Parsed(None, colon.remain);
    }
    hide Delimiter, ElementAt;
    var begin: nat, remain := colon.pos.value + 1, colon.remain - 1;
    while At(mem, begin) == ' '
      invariant 0 < begin <= |mem|
      invariant Spaces(mem, begin, remain) == Spaces(mem, colon.pos.value + 1, colon.remain - 1)
      decreases |mem| - begin
    {
      begin, remain := begin + 1, remain - 1;
      if remain <= 0 {
        return Parsed(None, remain);
      }
    }
    p := GetElement(mem, begin, remain);
  }

  /** One turn of the member loop: a key, its value, and the comma behind them. */
  method NextMember(mem: seq<char>, object_begin: nat, str_len: int, key: seq<char>) returns (t: Turn)
    requires object_begin <= |mem|
    ensures t == MemberTurn(mem, object_begin, str_len, key)
  {
    hide Delimiter, Key, Value;
    var k := GetJsonKey(mem, object_begin, str_len);
    if k.element.None? {
      return Stop;
    }
    var found := k.element.value;
    var v := GetJsonValue(mem, found.end + 1, k.remain - 1);
    if v.element.None? {
      return Stop;
    }
    var next := FindJsonDelimiter(mem, ',', ' ', v.element.value.end, v.remain);
    if |key| == found.len && key == mem[found.begin..found.end] {
      return Hit(v.element.value);
    }
    return if next.pos.None? then Stop else Go(next.pos.value + 1, next.remain - 1);
  }

  /** json_get_value_by_key: 0 and the value, or -1. */
  method GetValueByKey(mem: seq<char>, str: nat, str_len: int, key: seq<char>) returns (rc: int, value: Element)
    requires str <= |mem|
    ensures rc == if ByKey(mem, str, str_len, key).Some? then 0 else -1
    ensures rc == 0 ==> ByKey(mem, str, str_len, key) == Some(value)
  {
    hide Delimiter, MemberTurn;
    value := Element(0, 0, 0);
    var open := FindJsonDelimiter(mem, '{', ' ', str, str_len);
    if open.pos.None? {
      return -1, value;
    }
    var object_begin: nat, remain := open.pos.value + 1, open.remain - 1;
    while true
      invariant object_begin <= |mem|
      invariant Members(mem, object_begin, remain, key) == ByKey(mem, str, str_len, key)
      decreases remain
    {
      var t := NextMember(mem, object_begin, remain, key);
      match t
      case Stop => return -1, value;
      case Hit(e) => return 0, e;
      case Go(next, left) => object_begin, remain := next, left;
    }
  }

  /** utils_json_value_get: names separated by dots, looked up one inside the other. */
  method JsonValueGet(key: seq<char>, mem: seq<char>, src: nat, src_len: int) returns (rc: int, value: Element)
    requires src <= |mem|
    ensures rc == if ByPath(mem, src, src_len, key).Some? then 0 else -1
    ensures rc == 0 ==> ByPath(mem, src, src_len, key) == Some(value)
  {
    hide ByKey;
    var at: nat, len, rest := src, src_len, key;
    var delim := Dot(rest);
    while delim.Some?
      invariant at <= |mem| && delim == Dot(rest)
      invariant ByPath(mem, at, len, rest) == ByPath(mem, src, src_len, key)
      decreases |rest|
    {
      rc, value := GetValueByKey(mem, at, len, rest[..delim.value]);
      if rc != 0 {
        return rc, value;
      }
      at, len, rest := value.begin, value.len, rest[delim.value + 1..];
      delim := Dot(rest);
    }
    rc, value := GetValueByKey(mem, at, len, rest);
  }
}
