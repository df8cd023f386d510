/** Packing by a format string: numbers, slices, values of the protobuf types, and parentheses around
    what becomes a length-delimited record.
 */
module Pack {
  import opened Common
  import opened Words
  import opened Varint
  import opened Wire
  import opened Buffer
  import M = Message
  import C = MessageCode

  // A Lua argument; an argument that is missing counts as nil.
  datatype Arg = Nil | Boolean(v: bool) | Num(n: int) | Bytes(b: seq<byte>)

  // What packing has come to: the buffer, and the format and the arguments that are left.
  datatype State = State(out: seq<byte>, fmt: string, args: seq<Arg>)

  // lpb_typefmt, for the types that take an integer.
  function KindOf(c: char): Option<M.Kind> {
    match c
    case 'i' => Some(M.Int32)
    case 'u' => Some(M.UInt32)
    case 'j' => Some(M.SInt32)
    case 'x' => Some(M.Fixed32)
    case 'y' => Some(M.SFixed32)
    case 'I' => Some(M.Int64)
    case 'U' => Some(M.UInt64)
    case 'J' => Some(M.SInt64)
    case 'X' => Some(M.Fixed64)
    case 'Y' => Some(M.SFixed64)
    case _ => None
  }

  // lua_toboolean: everything is true but nil and false.
  predicate Truth(a: Arg) { !a.Nil? && a != Boolean(false) }

  // lpb_addtype: None if the type does not take the argument.
  function TypedScalar(c: char, a: Arg): Option<(M.Kind, M.Scalar)> {
    if c == 'b' then Some((M.Bool, M.Boolean(Truth(a))))
    else if c == 't' && a.Bytes? then Some((M.String, M.Text(a.b)))
    else if KindOf(c).Some? && a.Num? then Some((KindOf(c).value, M.Int(a.n)))
    else None
  }

  // One formatter that is not a parenthesis, with its argument.
  function PackOne(c: char, a: Arg, out: seq<byte>): Option<seq<byte>> {
    match c
    case 'v' => if a.Num? then Some(out + Encode(U64(a.n))) else None
    case 'd' => if a.Num? then Some(out + Fixed(U32(a.n), 4)) else None
    case 'q' => if a.Num? then Some(out + Fixed(U64(a.n), 8)) else None
    case '#' => if a.Num? && U64(a.n) <= |out| then Some(out[..U64(a.n)] + Delimited(out[U64(a.n)..])) else None
    case 'c' => if a.Bytes? then Some(out + a.b) else None
    case 's' => if a.Bytes? then Some(out + Prefixed(a.b)) else None
    case _ =>
      match TypedScalar(c, a)
      case None => None
      case Some(t) => Some(out + M.ScalarBytes(t.0, t.1))
  }

  function Next(args: seq<Arg>): Arg { if args == [] then Nil else args[0] }

  function Later(args: seq<Arg>): seq<Arg> { if args == [] then [] else args[1..] }

  // lpb_packfmt: packing until the end of the format, or to the ')' that ends this level. None stands
  // for an error.
  function PackFmt(s: State, level: nat): (r: Option<State>)
    ensures r.Some? ==> |r.value.fmt| <= |s.fmt| && (level > 0 ==> r.value.fmt != [] && r.value.fmt[0] == ')')
    ensures r.Some? && level == 0 ==> r.value.fmt == []
    decreases |s.fmt|, 101 - level
  {
    if level > 100 then None
    else if s.fmt == [] then if level == 0 then Some(s) else None
    else if s.fmt[0] == ')' then if level == 0 then None else Some(s)
    else if s.fmt[0] == '(' then
      match PackFmt(s.(fmt := s.fmt[1..]), level + 1)
      case None => None
      case Some(t) =>
        if |t.out| < |s.out| then None
        else PackFmt(State(t.out[..|s.out|] + Delimited(t.out[|s.out|..]), t.fmt[1..], t.args), level)
    else
      match PackOne(s.fmt[0], Next(s.args), s.out)
      case None => None
      case Some(out) => PackFmt(State(out, s.fmt[1..], Later(s.args)), level)
  }

  // ---- The format as it is meant: a list of items, some of which hold items ----

  datatype Item = One(c: char, arg: Arg) | Nest(items: seq<Item>)

  function Format(items: seq<Item>): string {
    if items == [] then []
    else (match items[0] case One(c, _) => [c] case Nest(inner) => ['('] + Format(inner) + [')']) + Format(items[1..])
  }

  function Args(items: seq<Item>): seq<Arg> {
    if items == [] then []
    else (match items[0] case One(_, a) => [a] case Nest(inner) => Args(inner)) + Args(items[1..])
  }

  // The bytes of each item; a nested list is a length-delimited record.
  function Flat(items: seq<Item>): seq<byte> {
    if items == [] then []
    else
      (match items[0]
       case One(c, a) => (match PackOne(c, a, []) case Some(b) => b case None => [])
       case Nest(inner) => Delimited(Flat(inner)))
      + Flat(items[1..])
  }

  function Depth(items: seq<Item>): nat {
    if items == [] then 0
    else
      var d := match items[0] case One(_, _) => 0 case Nest(inner) => 1 + Depth(inner);
      if d < Depth(items[1..]) then Depth(items[1..]) else d
  }

  // Each single formatter fits its argument and only appends.
  predicate Fits(items: seq<Item>) {
    items == [] ||
    (&& (match items[0]
         case One(c, a) => c != '#' && c != '(' && c != ')' && PackOne(c, a, []).Some?
         case Nest(inner) => Fits(inner))
     && Fits(items[1..]))
  }

  lemma OneAppends(c: char, a: Arg, out: seq<byte>)
    requires c != '#' && PackOne(c, a, []).Some?
    ensures PackOne(c, a, out) == Some(out + PackOne(c, a, []).value)
  {
    assert forall b: seq<byte> :: [] + b == b;
  }

  lemma FirstOne(c: char, a: Arg, fmt: string, args: seq<Arg>, out: seq<byte>, level: nat)
    requires level <= 100 && c != '#' && c != '(' && c != ')' && PackOne(c, a, []).Some?
    ensures PackFmt(State(out, [c] + fmt, [a] + args), level) ==
            PackFmt(State(out + PackOne(c, a, []).value, fmt, args), level)
  {
    OneAppends(c, a, out);
    assert ([c] + fmt)[1..] == fmt && ([a] + args)[1..] == args;
  }

  lemma FirstNest(inner: State, out: seq<byte>, b: seq<byte>, fmt: string, args: seq<Arg>, level: nat)
    requires level < 100 && inner.out == out
    requires PackFmt(inner, level + 1) == Some(State(out + b, [')'] + fmt, args))
    ensures PackFmt(inner.(fmt := ['('] + inner.fmt), level) == PackFmt(State(out + Delimited(b), fmt, args), level)
  {
    assert (['('] + inner.fmt)[1..] == inner.fmt && ([')'] + fmt)[1..] == fmt;
    assert (out + b)[..|out|] == out && (out + b)[|out|..] == b;
  }

  ghost predicate Packs(items: seq<Item>, fmt: string, args: seq<Arg>, out: seq<byte>, level: nat) {
    PackFmt(State(out, Format(items) + fmt, Args(items) + args), level) == Some(State(out + Flat(items), fmt, args))
  }

  lemma Assoc<T>(a: seq<T>, b: seq<T>, c: seq<T>)
    ensures a + b + c == a + (b + c)
  {
  }

  lemma ListOfOne(c: char, a: Arg, rest: seq<Item>)
    ensures Format([One(c, a)] + rest) == [c] + Format(rest)
    ensures Args([One(c, a)] + rest) == [a] + Args(rest)
    ensures PackOne(c, a, []).Some? ==> Flat([One(c, a)] + rest) == PackOne(c, a, []).value + Flat(rest)
  {
    assert ([One(c, a)] + rest)[1..] == rest;
  }

  lemma ListOfNest(inner: seq<Item>, rest: seq<Item>)
    ensures Format([Nest(inner)] + rest) == ['('] + Format(inner) + [')'] + Format(rest)
    ensures Args([Nest(inner)] + rest) == Args(inner) + Args(rest)
    ensures Flat([Nest(inner)] + rest) == Delimited(Flat(inner)) + Flat(rest)
  {
    assert ([Nest(inner)] + rest)[1..] == rest;
  }

  lemma ConsOne(c: char, a: Arg, rest: seq<Item>, fmt: string, args: seq<Arg>, out: seq<byte>, level: nat)
    requires level <= 100 && c != '#' && c != '(' && c != ')' && PackOne(c, a, []).Some?
    requires Packs(rest, fmt, args, out + PackOne(c, a, []).value, level)
    ensures Packs([One(c, a)] + rest, fmt, args, out, level)
  {
    ListOfOne(c, a, rest);
    FirstOne(c, a, Format(rest) + fmt, Args(rest) + args, out, level);
    Assoc([c], Format(rest), fmt);
    Assoc([a], Args(rest), args);
    Assoc(out, PackOne(c, a, []).value, Flat(rest));
  }

  lemma ConsNest(inner: seq<Item>, rest: seq<Item>, fmt: string, args: seq<Arg>, out: seq<byte>, level: nat)
    requires level < 100
    requires Packs(inner, [')'] + (Format(rest) + fmt), Args(rest) + args, out, level + 1)
    requires Packs(rest, fmt, args, out + Delimited(Flat(inner)), level)
    ensures Packs([Nest(inner)] + rest, fmt, args, out, level)
  {
    var fmt', args' := Format(rest) + fmt, Args(rest) + args;
    ListOfNest(inner, rest);
    FirstNest(State(out, Format(inner) + ([')'] + fmt'), Args(inner) + args'), out, Flat(inner), fmt', args', level);
    NestFormat(Format(inner), Format(rest), fmt);
    Assoc(Args(inner), Args(rest), args);
    Assoc(out, Delimited(Flat(inner)), Flat(rest));
  }

  lemma FirstFits(items: seq<Item>)
    requires Fits(items) && items != []
    ensures items == [items[0]] + items[1..] && Fits(items[1..]) && Depth(items[1..]) <= Depth(items)
    ensures items[0].Nest? ==> Fits(items[0].items) && Depth(items[0].items) < Depth(items)
  {
  }

  // A balanced format of at most 100 levels appends exactly the nested encoding, uses its own
  // arguments and stops at its own end.
  lemma {:induction false} NestedFormatPacks(items: seq<Item>, fmt: string, args: seq<Arg>, out: seq<byte>, level: nat)
    requires Fits(items) && level + Depth(items) <= 100
    requires if level == 0 then fmt == [] else fmt != [] && fmt[0] == ')'
    ensures PackFmt(State(out, Format(items) + fmt, Args(items) + args), level) ==
            Some(State(out + Flat(items), fmt, args))
    decreases items, 1
  {
    if items == [] {
      assert [] + fmt == fmt && [] + args == args && out + [] == out;
    } else {
      FirstFits(items);
      if items[0].One? {
        OneThenRest(items, fmt, args, out, level);
      } else {
        NestThenRest(items, fmt, args, out, level);
      }
    }
  }

  lemma {:induction false} OneThenRest(items: seq<Item>, fmt: string, args: seq<Arg>, out: seq<byte>, level: nat)
    requires Fits(items) && level + Depth(items) <= 100 && items != [] && items[0].One?
    requires if level == 0 then fmt == [] else fmt != [] && fmt[0] == ')'
    ensures Packs(items, fmt, args, out, level)
    decreases items, 0
  {
    var rest, c, a := items[1..], items[0].c, items[0].arg;
    FirstFits(items);
    NestedFormatPacks(rest, fmt, args, out + PackOne(c, a, []).value, level);
    ConsOne(c, a, rest, fmt, args, out, level);
  }

  lemma {:induction false} NestThenRest(items: seq<Item>, fmt: string, args: seq<Arg>, out: seq<byte>, level: nat)
    requires Fits(items) && level + Depth(items) <= 100 && items != [] && items[0].Nest?
    requires if level == 0 then fmt == [] else fmt != [] && fmt[0] == ')'
    ensures Packs(items, fmt, args, out, level)
    decreases items, 0
  {
    var rest, inner := items[1..], items[0].items;
    FirstFits(items);
    NestedFormatPacks(inner, [')'] + (Format(rest) + fmt), Args(rest) + args, out, level + 1);
    NestedFormatPacks(rest, fmt, args, out + Delimited(Flat(inner)), level);
    ConsNest(inner, rest, fmt, args, out, level);
  }

  lemma NestFormat(inner: string, rest: string, fmt: string)
    ensures ['('] + inner + [')'] + rest + fmt == ['('] + (inner + ([')'] + (rest + fmt)))
  {
  }

  // Reading the record of a nested list gives back what its items were packed to.
  lemma NestedIsReadBack(inner: seq<Item>, rest: seq<byte>)
    requires |Flat(inner)| < 0x1_0000_0000_0000_0000
    ensures ReadDelimited(Flat([Nest(inner)]) + rest) == Some(Payload(Flat(inner), |Flat([Nest(inner)])|))
  {
    ListOfNest(inner, []);
    assert [Nest(inner)] + [] == [Nest(inner)];
    assert Flat([Nest(inner)]) == Delimited(Flat(inner)) + [] == Delimited(Flat(inner));
    DelimitedRoundTrip(Flat(inner), rest);
  }

  lemma TypedPacks(c: char, a: Arg)
    requires TypedScalar(c, a).Some?
    ensures PackOne(c, a, []) == Some(M.ScalarBytes(TypedScalar(c, a).value.0, TypedScalar(c, a).value.1))
  {
    var (k, s) := TypedScalar(c, a).value;
    assert [] + M.ScalarBytes(k, s) == M.ScalarBytes(k, s);
  }

  // What a typed formatter packed is read back as the value of its type.
  lemma TypedIsReadBack(c: char, a: Arg, rest: seq<byte>)
    requires TypedScalar(c, a).Some?
    requires M.InRange(TypedScalar(c, a).value.0, TypedScalar(c, a).value.1)
    ensures PackOne(c, a, []).Some?
    ensures var (k, s) := TypedScalar(c, a).value;
            var b := PackOne(c, a, []).value;
            M.ReadScalar(k, b + rest) == Some(Got(s, |b|))
  {
    TypedPacks(c, a);
    M.ScalarRoundTrip(TypedScalar(c, a).value.0, TypedScalar(c, a).value.1, rest);
  }

  // ---- The code ----

  method PackOneTo(buf: ByteBuffer, c: char, a: Arg) returns (ok: bool)
    requires buf.Valid()
    modifies buf, buf.buff
    ensures buf.Valid() && (buf.buff == old(buf.buff) || fresh(buf.buff))
    ensures match PackOne(c, a, old(buf.Contents()))
            case None => !ok
            case Some(out) => ok && buf.Contents() == out
  {
    var len: nat;
    match c {
      case 'v' =>
        if !a.Num? { return false; }
        len := buf.AddVarint64(U64(a.n));
      case 'd' =>
        if !a.Num? { return false; }
        len := buf.AddFixed(U32(a.n), 4);
      case 'q' =>
        if !a.Num? { return false; }
        len := buf.AddFixed(U64(a.n), 8);
      case '#' =>
        if !a.Num? { return false; }
        len := buf.AddLength(U64(a.n));
        return len != 0;
      case 'c' =>
        if !a.Bytes? { return false; }
        buf.AddSlice(a.b);
      case 's' =>
        if !a.Bytes? { return false; }
        len := buf.AddBytes(a.b);
      case _ =>
        var t := TypedScalar(c, a);
        if t == None { return false; }
        len := C.AddScalar(buf, t.value.0, t.value.1);
    }
    return true;
  }

  // What is left at a position of the format and one of the arguments.
  ghost function At(out: seq<byte>, fmt: string, p: nat, args: seq<Arg>, i: nat): State
    requires p <= |fmt| && i <= |args|
  {
    State(out, fmt[p..], args[i..])
  }

  // lpb_packfmt: the positions in the format and in the arguments where this level ends.
  method PackFmtTo(buf: ByteBuffer, fmt: string, pos: nat, args: seq<Arg>, idx: nat, level: nat)
    returns (r: Option<(nat, nat)>)
    requires buf.Valid() && pos <= |fmt| && idx <= |args|
    modifies buf, buf.buff
    ensures buf.Valid() && (buf.buff == old(buf.buff) || fresh(buf.buff))
    ensures r.Some? ==> pos <= r.value.0 <= |fmt| && idx <= r.value.1 <= |args|
    ensures PackFmt(At(old(buf.Contents()), fmt, pos, args, idx), level) ==
            if r == None then None else Some(At(buf.Contents(), fmt, r.value.0, args, r.value.1))
    decreases |fmt| - pos, 101 - level, 3
  {
    if level > 100 {
      return None;
    }
    var p, i := pos, idx;
    while p < |fmt|
      invariant buf.Valid() && (buf.buff == old(buf.buff) || fresh(buf.buff))
      invariant pos <= p <= |fmt| && idx <= i <= |args|
      invariant PackFmt(At(buf.Contents(), fmt, p, args, i), level) ==
                PackFmt(At(old(buf.Contents()), fmt, pos, args, idx), level)
      decreases |fmt| - p
    {
      if fmt[p] == ')' {
        return if level == 0 then None else Some((p, i));
      }
      var next := PackNext(buf, fmt, p, args, i, level);
      if next == None {
        return None;
      }
      p, i := next.value.0, next.value.1;
    }
    return if level == 0 then Some((p, i)) else None;
  }

  // One turn of the loop.
  method PackNext(buf: ByteBuffer, fmt: string, p: nat, args: seq<Arg>, i: nat, level: nat)
    returns (r: Option<(nat, nat)>)
    requires buf.Valid() && p < |fmt| && i <= |args| && level <= 100 && fmt[p] != ')'
    modifies buf, buf.buff
    ensures buf.Valid() && (buf.buff == old(buf.buff) || fresh(buf.buff))
    ensures r.Some? ==> p < r.value.0 <= |fmt| && i <= r.value.1 <= |args|
    ensures PackFmt(At(old(buf.Contents()), fmt, p, args, i), level) ==
            if r == None then None else PackFmt(At(buf.Contents(), fmt, r.value.0, args, r.value.1), level)
    decreases |fmt| - p, 101 - level, 2
  {
    assert fmt[p..][1..] == fmt[p + 1..];
    if fmt[p] == '(' {
      r := PackNested(buf, fmt, p, args, i, level);
      return;
    }
    assert i < |args| ==> args[i..][1..] == args[i + 1..];
    var ok := PackOneTo(buf, fmt[p], if i < |args| then args[i] else Nil);
    return if ok then Some((p + 1, if i < |args| then i + 1 else i)) else None;
  }

  // The nested level fails, ...
  lemma NestFails(out: seq<byte>, fmt: string, p: nat, args: seq<Arg>, i: nat, level: nat)
    requires p < |fmt| && i <= |args| && level <= 100 && fmt[p] == '('
    requires PackFmt(At(out, fmt, p + 1, args, i), level + 1) == None
    ensures PackFmt(At(out, fmt, p, args, i), level) == None
  {
    assert fmt[p..][1..] == fmt[p + 1..];
  }

  // ... or ends at q and j with these bytes in the buffer.
  ghost predicate Nests(out: seq<byte>, fmt: string, p: nat, args: seq<Arg>, i: nat, level: nat, packed: seq<byte>,
                        q: nat, j: nat) {
    && p < |fmt| && i <= |args| && level <= 100 && fmt[p] == '(' && q < |fmt| && j <= |args|
    && PackFmt(At(out, fmt, p + 1, args, i), level + 1) == Some(At(packed, fmt, q, args, j))
  }

  lemma NestBreaks(out: seq<byte>, fmt: string, p: nat, args: seq<Arg>, i: nat, level: nat, packed: seq<byte>, q: nat,
                   j: nat)
    requires Nests(out, fmt, p, args, i, level, packed, q, j) && |packed| < |out|
    ensures PackFmt(At(out, fmt, p, args, i), level) == None
  {
    assert fmt[p..][1..] == fmt[p + 1..];
  }

  lemma NestCloses(out: seq<byte>, fmt: string, p: nat, args: seq<Arg>, i: nat, level: nat, packed: seq<byte>, q: nat,
                   j: nat, after: seq<byte>)
    requires Nests(out, fmt, p, args, i, level, packed, q, j) && |out| <= |packed|
    requires after == packed[..|out|] + Delimited(packed[|out|..])
    ensures PackFmt(At(out, fmt, p, args, i), level) == PackFmt(At(after, fmt, q + 1, args, j), level)
  {
    assert fmt[p..][1..] == fmt[p + 1..];
    assert fmt[q..][1..] == fmt[q + 1..];
  }

  // The nested level leaves its ')' to be passed.
  method PackInner(buf: ByteBuffer, fmt: string, p: nat, args: seq<Arg>, i: nat, level: nat)
    returns (r: Option<(nat, nat)>)
    requires buf.Valid() && p < |fmt| && i <= |args| && level <= 100 && fmt[p] == '('
    modifies buf, buf.buff
    ensures buf.Valid() && (buf.buff == old(buf.buff) || fresh(buf.buff))
    ensures r == None ==> PackFmt(At(old(buf.Contents()), fmt, p, args, i), level) == None
    ensures r.Some? ==> p < r.value.0 && i <= r.value.1
    ensures r.Some? ==> Nests(old(buf.Contents()), fmt, p, args, i, level, buf.Contents(), r.value.0, r.value.1)
    decreases |fmt| - p, 101 - level, 0
  {
    r := PackFmtTo(buf, fmt, p + 1, args, i, level + 1);
    if r == None {
      NestFails(old(buf.Contents()), fmt, p, args, i, level);
    }
  }

  // Puts the nested record's length before its bytes, unless they cut what stood there before.
  method CloseNest(buf: ByteBuffer, len: nat, ghost out: seq<byte>, fmt: string, p: nat, args: seq<Arg>, i: nat,
                   level: nat, q: nat, j: nat)
    returns (ok: bool)
    requires buf.Valid() && len == |out| && Nests(out, fmt, p, args, i, level, buf.Contents(), q, j)
    modifies buf, buf.buff
    ensures buf.Valid() && (buf.buff == old(buf.buff) || fresh(buf.buff))
    ensures !ok ==> PackFmt(At(out, fmt, p, args, i), level) == None
    ensures ok ==> PackFmt(At(out, fmt, p, args, i), level) ==
                   PackFmt(At(buf.Contents(), fmt, q + 1, args, j), level)
  {
    ghost var packed := buf.Contents();
    var ml := buf.AddLength(len);
    if ml == 0 {
      NestBreaks(out, fmt, p, args, i, level, packed, q, j);
      return false;
    }
    NestCloses(out, fmt, p, args, i, level, packed, q, j, buf.Contents());
    return true;
  }

  // From '(' to just after its ')'.
  method PackNested(buf: ByteBuffer, fmt: string, p: nat, args: seq<Arg>, i: nat, level: nat)
    returns (r: Option<(nat, nat)>)
    requires buf.Valid() && p < |fmt| && i <= |args| && level <= 100 && fmt[p] == '('
    modifies buf, buf.buff
    ensures buf.Valid() && (buf.buff == old(buf.buff) || fresh(buf.buff))
    ensures r.Some? ==> p < r.value.0 <= |fmt| && i <= r.value.1 <= |args|
    ensures PackFmt(At(old(buf.Contents()), fmt, p, args, i), level) ==
            if r == None then None else PackFmt(At(buf.Contents(), fmt, r.value.0, args, r.value.1), level)
    decreases |fmt| - p, 101 - level, 1
  {
    var len := buf.size;
    var inner := PackInner(buf, fmt, p, args, i, level);
    if inner == None {
      return None;
    }
    var q, j := inner.value.0, inner.value.1;
    var ok := CloseNest(buf, len, old(buf.Contents()), fmt, p, args, i, level, q, j);
    return if ok then Some((q + 1, j)) else None;
  }
}
