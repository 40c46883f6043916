/** The command-line parser of the C++ programs: options found by prefix, values
    checked and stored by type, and the round trip from assignments to text and back. */
module CommandLine {
  import opened Machine
  import opened Sorting
  import opened Text

  datatype Type =
    Bool | Str | NumericLlu | NumericLd | NumericD | VectorStr | VectorNumeric | PairNumericStr

  datatype ExtraArgument = No | Possible | Yes

  /** A registered parameter: what `parse` reads of it. */
  datatype Parameter = Parameter(
    option: string, kind: Type, extra: ExtraArgument, split: bool, low: nat, high: nat, valid: seq<string>)

  datatype Value =
    Flag(flag: bool) | Word(word: string) | Number(number: int)
    | Words(words: seq<string>) | Numbers(numbers: seq<nat>) | Pair(count: nat, name: string)

  /** A parameter's current value, and whether the command line has set it. */
  datatype Cell = Cell(isSet: bool, value: Value)

  // ----- Finding the option -----

  function Lower(c: char): (l: char) {
    if 'A' <= c <= 'Z' then c + 32 as char else c
  }

  /** The prefix test: as many characters as the argument has, whatever their case. */
  predicate IsOption(arg: string, option: string) {
    |arg| <= |option| && forall i :: 0 <= i < |arg| ==> Lower(arg[i]) == Lower(option[i])
  }

  const UPPER := "ABCDEFGHIJKLMNOPQRSTUVWXYZ"
  const LOWER := "abcdefghijklmnopqrstuvwxyz"

  /** The same letter, in one case or the other, or the same other character. */
  ghost predicate SameLetter(a: char, b: char) {
    || a == b
    || exists k :: 0 <= k < 26 && ((a == UPPER[k] && b == LOWER[k]) || (a == LOWER[k] && b == UPPER[k]))
  }

  lemma PrefixInEitherCase(arg: string, option: string)
    ensures IsOption(arg, option)
        <==> |arg| <= |option| && forall i :: 0 <= i < |arg| ==> SameLetter(arg[i], option[i])
  {
    forall a: char, b: char
      ensures Lower(a) == Lower(b) <==> SameLetter(a, b)
    {
      LowerJoinsCases(a, b);
    }
  }

  lemma LowerJoinsCases(a: char, b: char)
    ensures Lower(a) == Lower(b) <==> SameLetter(a, b)
  {
    Alphabets();
    if Lower(a) == Lower(b) && a != b {
      var k := Lower(a) as int - 'a' as int;
      assert 0 <= k < 26 && UPPER[k] as int == 'A' as int + k && LOWER[k] as int == 'a' as int + k;
    }
  }

  lemma Alphabets()
    ensures |UPPER| == |LOWER| == 26
    ensures forall k :: 0 <= k < 26 ==> UPPER[k] as int == 'A' as int + k && LOWER[k] as int == 'a' as int + k
  {
  }

  /** The first parameter, in key order, that the argument can stand for. */
  function Match(registry: seq<Parameter>, arg: string): (k: nat)
    ensures k <= |registry|
    ensures k < |registry| ==> IsOption(arg, registry[k].option)
    ensures forall j :: 0 <= j < k ==> !IsOption(arg, registry[j].option)
  {
    if registry == [] || IsOption(arg, registry[0].option) then 0 else
      var k := Match(registry[1..], arg);
      assert forall j :: 1 <= j < k + 1 ==> registry[j] == registry[1..][j - 1];
      k + 1
  }

  /** An option that is a prefix of another has the smaller key. */
  ghost predicate PrefixesFirst(registry: seq<Parameter>) {
    forall a, b ::
      (0 <= a < |registry| && 0 <= b < |registry| && a != b && IsOption(registry[a].option, registry[b].option))
      ==> a < b
  }

  /** Every option finds itself exactly in such registries. */
  lemma OptionsFindThemselvesIff(registry: seq<Parameter>)
    ensures (forall k :: 0 <= k < |registry| ==> Match(registry, registry[k].option) == k)
        <==> PrefixesFirst(registry)
  {
    forall k | 0 <= k < |registry|
      ensures IsOption(registry[k].option, registry[k].option)
    {
    }
    if PrefixesFirst(registry) {
      forall k | 0 <= k < |registry|
        ensures Match(registry, registry[k].option) == k
      {
        var j := Match(registry, registry[k].option);
        assert j <= k;
      }
    }
  }

  // ----- Reading one value -----

  /** What `sscanf` stores for each width; out of range it saturates, a negative wraps. */
  function ScanLlu(s: string): (v: Option<nat>) {
    var v := ReadInteger(s);
    if v.None? then None
    else if Abs(v.value) >= TWO64 then Some(TWO64 - 1)
    else Some(UInt64(v.value))
  }

  function ScanLd(s: string): (v: Option<int>) {
    var v := ReadInteger(s);
    if v.None? then None else Some(Max(0 - TWO63, Min(TWO63 - 1, v.value)))
  }

  function ScanD(s: string): (v: Option<int>) {
    var v := ScanLd(s);
    if v.None? then None else Some(Int32(v.value))
  }

  /** The range test converts to 64 unsigned bits first. */
  predicate NumberAllowed(p: Parameter, v: int) { p.low <= UInt64(v) <= p.high }

  predicate WordAllowed(p: Parameter, s: string) { p.valid == [] || s in p.valid }

  /** Adding to a vector drops the defaults the first time, and sorts. */
  function WithNumber(c: Cell, x: nat): (c': Cell) {
    Cell(true, Numbers(Sort(NumbersSet(c) + [x], BY_NUMBER)))
  }

  function WithWord(c: Cell, s: string): (c': Cell) {
    Cell(true, Words(Sort(WordsSet(c) + [s], BY_TEXT)))
  }

  /** The part of a vector that the command line has set. */
  function NumbersSet(c: Cell): (ns: seq<nat>) { if c.isSet && c.value.Numbers? then c.value.numbers else [] }

  function WordsSet(c: Cell): (ws: seq<string>) { if c.isSet && c.value.Words? then c.value.words else [] }

  /** The locals of the parser: one register per number width, which keeps its old
      content when nothing could be read, and the verdict so far. */
  datatype Scan = Scan(llu: nat, ld: int, d: int, success: bool)

  /** A cell and the locals after a value; `fatal` means that parsing stops. */
  datatype Stored = Stored(cell: Cell, scan: Scan, fatal: bool)

  function ReadLlu(p: Parameter, sc: Scan, s: string): (r: Scan) {
    var v := ScanLlu(s);
    var x := if v.Some? then v.value else sc.llu;
    sc.(llu := x, success := sc.success && v.Some? && NumberAllowed(p, x))
  }

  function Store(p: Parameter, c: Cell, sc: Scan, s: string): (r: Stored) {
    match p.kind
    case Bool => Stored(c, sc, false)
    case Str => Stored(Cell(true, Word(s)), sc.(success := sc.success && WordAllowed(p, s)), false)
    case NumericLlu =>
      var sc := ReadLlu(p, sc, s);
      Stored(Cell(true, Number(sc.llu)), sc, false)
    case NumericLd =>
      var v := ScanLd(s);
      var x := if v.Some? then v.value else sc.ld;
      Stored(Cell(true, Number(x)), sc.(ld := x, success := sc.success && v.Some? && NumberAllowed(p, x)), false)
    case NumericD =>
      var v := ScanD(s);
      var x := if v.Some? then v.value else sc.d;
      Stored(Cell(true, Number(x)), sc.(d := x, success := sc.success && v.Some? && NumberAllowed(p, x)), false)
    case VectorStr =>
      if p.split then Stored(c, sc, false)
      else Stored(WithWord(c, s), sc.(success := sc.success && WordAllowed(p, s)), false)
    case VectorNumeric =>
      if p.split then StoreEach(p, c, sc, Tokens(s, ':')) else Stored(c, sc, false)
    case PairNumericStr =>
      var v := Tokens(s, ':');
      if |v| != 2 then Stored(c, sc, true)
      else
        var sc := ReadLlu(p, sc, v[0]);
        Stored(Cell(true, Pair(sc.llu, v[1])), sc.(success := sc.success && WordAllowed(p, v[1])), false)
  }

  function StoreEach(p: Parameter, c: Cell, sc: Scan, tokens: seq<string>): (r: Stored)
    ensures !r.fatal
    decreases |tokens|
  {
    if tokens == [] then Stored(c, sc, false)
    else
      var sc := ReadLlu(p, sc, tokens[0]);
      StoreEach(p, WithNumber(c, sc.llu), sc, tokens[1..])
  }

  // ----- The whole command line -----

  datatype Parsed = Parsed(success: bool, cells: seq<Cell>)

  predicate StartsWithDash(s: string) { s != [] && s[0] == '-' }

  /** Parsing what is left of the arguments. */
  function ParseRest(registry: seq<Parameter>, cells: seq<Cell>, sc: Scan, rest: seq<string>): (r: Parsed)
    requires |cells| == |registry|
    ensures |r.cells| == |cells|
    decreases |rest|
  {
    if rest == [] then Parsed(sc.success, cells) else
      var k := Match(registry, rest[0]);
      if k == |registry| then ParseRest(registry, cells, sc.(success := false), rest[1..])
      else if registry[k].extra.No? then
        var flagged := if registry[k].kind.Bool? then cells[k := Cell(true, Flag(true))] else cells;
        ParseRest(registry, flagged, sc, rest[1..])
      else if |rest| == 1 || StartsWithDash(rest[1]) then
        if registry[k].extra.Yes? then Parsed(false, cells)
        else ParseRest(registry, cells[k := cells[k].(isSet := true)], sc, rest[1..])
      else
        var stored := Store(registry[k], cells[k], sc, rest[1]);
        if stored.fatal then Parsed(false, cells)
        else ParseRest(registry, cells[k := stored.cell], stored.scan, rest[2..])
  }

  class ParameterManager {
    const registry: seq<Parameter>
    var cells: seq<Cell>

    ghost predicate Valid()
      reads this
    {
      |cells| == |registry|
    }

    constructor (registry: seq<Parameter>, defaults: seq<Cell>)
      requires |registry| == |defaults|
      ensures Valid() && this.registry == registry && cells == defaults
    {
      this.registry, cells := registry, defaults;
    }

    /** `unset` is what the three number registers hold before anything is read. */
    method Parse(allArgs: seq<string>, unset: Scan) returns (success: bool)
      requires Valid() && allArgs != [] && unset.success
      modifies this
      ensures Valid()
      ensures Parsed(success, cells) == ParseRest(registry, old(cells), unset, allArgs[1..])
    {
      hide Store;
      var sc := unset;
      var i := 1;
      while i < |allArgs|
        invariant Valid() && 1 <= i <= |allArgs|
        invariant ParseRest(registry, cells, sc, allArgs[i..])
               == ParseRest(registry, old(cells), unset, allArgs[1..])
        decreases |allArgs| - i
      {
        var it := 0;
        while it < |registry| && !IsOption(allArgs[i], registry[it].option)
          invariant 0 <= it <= |registry|
          invariant forall j :: 0 <= j < it ==> !IsOption(allArgs[i], registry[j].option)
        {
          it := it + 1;
        }
        ghost var rest := allArgs[i..];
        assert Match(registry, rest[0]) == it && rest[1..] == allArgs[i + 1..];
        if it == |registry| {
          sc := sc.(success := false);
        } else {
          var p := registry[it];
          if p.extra == No {
            if p.kind == Bool {
              cells := cells[it := Cell(true, Flag(true))];
            }
          } else if i + 1 >= |allArgs| || StartsWithDash(allArgs[i + 1]) {
            if p.extra == Yes {
              return false;
            }
            cells := cells[it := cells[it].(isSet := true)];
          } else {
            i := i + 1;
            assert rest[2..] == allArgs[i + 1..] && rest[1] == allArgs[i];
            var cell, fatal;
            cell, sc, fatal := Take(p, cells[it], sc, allArgs[i]);
            if fatal {
              return false;
            }
            cells := cells[it := cell];
          }
        }
        i := i + 1;
      }
      success := sc.success;
    }
  }

  /** The value part of the parser, by type. */
  method Take(p: Parameter, before: Cell, scan: Scan, s: string) returns (cell: Cell, sc: Scan, fatal: bool)
    ensures Stored(cell, sc, fatal) == Store(p, before, scan, s)
  {
    hide WithNumber, WithWord, NumberAllowed, WordAllowed, ScanLlu, ScanLd, ScanD;
    cell, sc, fatal := before, scan, false;
    match p.kind
    case Bool =>
    case Str =>
      if !WordAllowed(p, s) {
        sc := sc.(success := false);
      }
      cell := Cell(true, Word(s));
    case NumericLlu =>
      sc := ReadLlu(p, sc, s);
      cell := Cell(true, Number(sc.llu));
    case NumericLd =>
      var v := ScanLd(s);
      if v.None? {
        sc := sc.(success := false);
      } else {
        sc := sc.(ld := v.value);
      }
      if !NumberAllowed(p, sc.ld) {
        sc := sc.(success := false);
      }
      cell := Cell(true, Number(sc.ld));
    case NumericD =>
      var v := ScanD(s);
      if v.None? {
        sc := sc.(success := false);
      } else {
        sc := sc.(d := v.value);
      }
      if !NumberAllowed(p, sc.d) {
        sc := sc.(success := false);
      }
      cell := Cell(true, Number(sc.d));
    case VectorStr =>
      if !p.split {
        if !WordAllowed(p, s) {
          sc := sc.(success := false);
        }
        cell := WithWord(cell, s);
      }
    case VectorNumeric =>
      if p.split {
        var v, j := Tokens(s, ':'), 0;
        while j < |v|
          invariant 0 <= j <= |v|
          invariant StoreEach(p, cell, sc, v[j..]) == StoreEach(p, before, scan, v)
        {
          sc := ReadLlu(p, sc, v[j]);
          cell := WithNumber(cell, sc.llu);
          assert v[j..][1..] == v[j + 1..];
          j := j + 1;
        }
      }
    case PairNumericStr =>
      var v := Tokens(s, ':');
      if |v| != 2 {
        fatal := true;
        return;
      }
      sc := ReadLlu(p, sc, v[0]);
      if !WordAllowed(p, v[1]) {
        sc := sc.(success := false);
      }
      cell := Cell(true, Pair(sc.llu, v[1]));
  }

  // ----- Rendering assignments as arguments -----

  datatype Given =
    | Nothing
    | Text(text: string)
    | Count(count: nat)
    | Counts(counts: seq<nat>)
    | Pairing(first: nat, second: string)

  datatype Assignment = Assignment(param: nat, given: Given)

  /** A value of the parameter's type, whether or not it is allowed. */
  predicate ValueTyped(p: Parameter, g: Given) {
    match p.kind
    case Bool => false
    case Str => g.Text? && !StartsWithDash(g.text)
    case NumericLlu => g.Count? && g.count < TWO64
    case NumericLd => g.Count? && g.count < TWO63
    case NumericD => g.Count? && g.count < TWO31
    case VectorStr => !p.split && g.Text? && !StartsWithDash(g.text)
    case VectorNumeric => p.split && g.Counts? && g.counts != [] && forall n :: n in g.counts ==> n < TWO64
    case PairNumericStr => g.Pairing? && g.first < TWO64 && g.second != [] && ':' !in g.second
  }

  predicate InBounds(p: Parameter, n: nat) { p.low <= n <= p.high }

  predicate Listed(p: Parameter, t: string) { p.valid == [] || t in p.valid }

  /** Every number in its bounds and every word among the valid ones. */
  predicate Allowed(p: Parameter, g: Given) {
    match g
    case Nothing => true
    case Text(t) => Listed(p, t)
    case Count(n) => InBounds(p, n)
    case Counts(ns) => forall n :: n in ns ==> InBounds(p, n)
    case Pairing(n, t) => InBounds(p, n) && Listed(p, t)
  }

  /** What a user may write after the option. */
  predicate Typed(registry: seq<Parameter>, a: Assignment) {
    && a.param < |registry|
    && match registry[a.param].extra
       case No => a.given.Nothing?
       case Possible => a.given.Nothing? || ValueTyped(registry[a.param], a.given)
       case Yes => ValueTyped(registry[a.param], a.given)
  }

  predicate AllTyped(registry: seq<Parameter>, todo: seq<Assignment>) {
    forall a :: a in todo ==> Typed(registry, a)
  }

  predicate AllAllowed(registry: seq<Parameter>, todo: seq<Assignment>)
    requires AllTyped(registry, todo)
  {
    forall a :: a in todo ==> Allowed(registry[a.param], a.given)
  }

  predicate AllAssignmentsFit(registry: seq<Parameter>, todo: seq<Assignment>) {
    AllTyped(registry, todo) && AllAllowed(registry, todo)
  }

  function Decimals(ns: seq<nat>): (parts: seq<string>)
    ensures |parts| == |ns| && forall i :: 0 <= i < |ns| ==> parts[i] == Decimal(ns[i])
  {
    seq(|ns|, i requires 0 <= i < |ns| => Decimal(ns[i]))
  }

  function RenderValue(g: Given): (s: string)
    requires g.Counts? ==> g.counts != []
  {
    match g
    case Nothing => []
    case Text(t) => t
    case Count(n) => Decimal(n)
    case Counts(ns) => Join(Decimals(ns), ':')
    case Pairing(n, t) => Decimal(n) + [':'] + t
  }

  function Render(registry: seq<Parameter>, a: Assignment): (args: seq<string>)
    requires Typed(registry, a)
    ensures args != [] && args[0] == registry[a.param].option
  {
    [registry[a.param].option] + if a.given.Nothing? then [] else [RenderValue(a.given)]
  }

  function RenderAll(registry: seq<Parameter>, todo: seq<Assignment>): (args: seq<string>)
    requires AllTyped(registry, todo)
  {
    if todo == [] then [] else
      assert todo[0] in todo;
      Render(registry, todo[0]) + RenderAll(registry, todo[1..])
  }

  // ----- What assignments mean -----

  function AddNumbers(c: Cell, ns: seq<nat>): (c': Cell)
    decreases |ns|
  {
    if ns == [] then c else AddNumbers(WithNumber(c, ns[0]), ns[1..])
  }

  /** The effect of one assignment on the parameter's cell. */
  function Assigned(p: Parameter, c: Cell, g: Given): (c': Cell) {
    match g
    case Nothing =>
      if p.extra.Possible? then c.(isSet := true)
      else if p.kind.Bool? then Cell(true, Flag(true))
      else c
    case Text(t) => if p.kind.VectorStr? then WithWord(c, t) else Cell(true, Word(t))
    case Count(n) => Cell(true, Number(n))
    case Counts(ns) => AddNumbers(c, ns)
    case Pairing(n, t) => Cell(true, Pair(n, t))
  }

  /** The cells after a sequence of assignments. */
  function AfterAll(registry: seq<Parameter>, cells: seq<Cell>, todo: seq<Assignment>): (r: seq<Cell>)
    requires |cells| == |registry|
    ensures |r| == |cells|
    decreases |todo|
  {
    if todo == [] || todo[0].param >= |registry| then cells else
      var k := todo[0].param;
      AfterAll(registry, cells[k := Assigned(registry[k], cells[k], todo[0].given)], todo[1..])
  }

  predicate DashedOptions(registry: seq<Parameter>) {
    forall k :: 0 <= k < |registry| ==> StartsWithDash(registry[k].option)
  }

  /** Rendering any well-typed assignments and parsing the result has exactly their effect,
      and succeeds so far exactly if all of them are allowed, whatever the registers held,
      in any registry whose options start with a dash and find themselves. */
  lemma {:induction false} ParseRendered(registry: seq<Parameter>, cells: seq<Cell>, sc: Scan,
                                         todo: seq<Assignment>, tail: seq<string>)
    returns (sc': Scan)
    requires |cells| == |registry| && DashedOptions(registry) && PrefixesFirst(registry)
    requires AllTyped(registry, todo) && (tail == [] || StartsWithDash(tail[0]))
    ensures sc'.success == (sc.success && AllAllowed(registry, todo))
    ensures ParseRest(registry, cells, sc, RenderAll(registry, todo) + tail)
         == ParseRest(registry, AfterAll(registry, cells, todo), sc', tail)
    decreases |todo|
  {
    if todo == [] {
      sc' := sc;
      assert [] + tail == tail;
    } else {
      hide ParseRest, Assigned, Allowed, Typed;
      var a, rest := todo[0], RenderAll(registry, todo[1..]);
      assert a in todo && forall b :: b in todo[1..] ==> b in todo;
      assert forall b :: b in todo ==> b == a || b in todo[1..];
      assert a.param < |registry| by { TypedInRange(registry, a); }
      RenderedStart(registry, todo[1..]);
      var one := OneAssignment(registry, cells, sc, a, rest + tail);
      var cells' := cells[a.param := Assigned(registry[a.param], cells[a.param], a.given)];
      sc' := ParseRendered(registry, cells', one, todo[1..], tail);
      assert Render(registry, a) + rest + tail == Render(registry, a) + (rest + tail);
    }
  }

  lemma TypedInRange(registry: seq<Parameter>, a: Assignment)
    requires Typed(registry, a)
    ensures a.param < |registry|
  {
  }

  /** The exact verdict on well-typed assignments: success if and only if every number lies
      in its bounds and every word is among the valid ones. */
  lemma VerdictIsExact(registry: seq<Parameter>, cells: seq<Cell>, sc: Scan, todo: seq<Assignment>)
    requires |cells| == |registry| && DashedOptions(registry) && PrefixesFirst(registry)
    requires AllTyped(registry, todo)
    ensures ParseRest(registry, cells, sc, RenderAll(registry, todo))
         == Parsed(sc.success && AllAllowed(registry, todo), AfterAll(registry, cells, todo))
  {
    var sc' := ParseRendered(registry, cells, sc, todo, []);
    assert RenderAll(registry, todo) + [] == RenderAll(registry, todo);
  }

  /** So assignments that fit succeed. */
  lemma ParseUndoesRender(registry: seq<Parameter>, cells: seq<Cell>, sc: Scan, todo: seq<Assignment>)
    requires |cells| == |registry| && DashedOptions(registry) && PrefixesFirst(registry)
    requires AllAssignmentsFit(registry, todo) && sc.success
    ensures ParseRest(registry, cells, sc, RenderAll(registry, todo)) == Parsed(true, AfterAll(registry, cells, todo))
  {
    VerdictIsExact(registry, cells, sc, todo);
  }

  lemma RenderedStart(registry: seq<Parameter>, todo: seq<Assignment>)
    requires DashedOptions(registry) && AllTyped(registry, todo)
    ensures var args := RenderAll(registry, todo); args == [] || StartsWithDash(args[0])
  {
    if todo != [] {
      assert todo[0] in todo;
      assert RenderAll(registry, todo)[0] == registry[todo[0].param].option;
    }
  }

  /** One rendered assignment, before nothing or another option. */
  lemma OneAssignment(registry: seq<Parameter>, cells: seq<Cell>, sc: Scan, a: Assignment, rest: seq<string>)
    returns (sc': Scan)
    requires |cells| == |registry| && DashedOptions(registry) && PrefixesFirst(registry)
    requires Typed(registry, a) && (rest == [] || StartsWithDash(rest[0]))
    ensures sc'.success == (sc.success && Allowed(registry[a.param], a.given))
    ensures var k := a.param;
            ParseRest(registry, cells, sc, Render(registry, a) + rest)
            == ParseRest(registry, cells[k := Assigned(registry[k], cells[k], a.given)], sc', rest)
  {
    hide Store, Allowed;
    var k, args := a.param, Render(registry, a) + rest;
    var p := registry[k];
    OptionsFindThemselvesIff(registry);
    assert args[0] == p.option && Match(registry, args[0]) == k;
    if a.given.Nothing? {
      sc' := sc;
      assert args[1..] == rest && cells[k := cells[k]] == cells;
      assert Allowed(p, Nothing) by { NothingAllowed(p); }
    } else {
      var value := RenderValue(a.given);
      assert args[1] == value && args[2..] == rest;
      sc' := StoreUndoesRender(p, cells[k], sc, a.given);
    }
  }

  lemma NothingAllowed(p: Parameter)
    ensures Allowed(p, Nothing)
  {
  }

  /** A rendered value is stored as the value it was, and the verdict is on the value. */
  lemma StoreUndoesRender(p: Parameter, c: Cell, sc: Scan, g: Given) returns (sc': Scan)
    requires ValueTyped(p, g)
    ensures Store(p, c, sc, RenderValue(g)) == Stored(Assigned(p, c, g), sc', false)
    ensures sc'.success == (sc.success && Allowed(p, g))
    ensures !StartsWithDash(RenderValue(g))
  {
    sc' := Store(p, c, sc, RenderValue(g)).scan;
    match g
    case Nothing => assert false;
    case Text(t) =>
    case Count(n) => ScanDecimal(p, sc, n);
    case Counts(ns) =>
      var parts := Decimals(ns);
      DecimalsPlain(ns);
      CutsUndoJoin(parts, ':');
      JoinStart(parts, ':');
      StoreEachCount(p, c, sc, ns);
    case Pairing(n, t) =>
      DecimalsPlain([n]);
      assert Decimals([n])[0] in Decimals([n]);
      CutsUndoJoin([Decimal(n), t], ':');
      assert Join([Decimal(n), t], ':') == Decimal(n) + [':'] + t;
      ScanDecimal(p, sc, n);
  }

  /** Every reader reads back a number that fits its width. */
  lemma ScanDecimal(p: Parameter, sc: Scan, n: nat)
    ensures !StartsWithDash(Decimal(n))
    ensures n < TWO64 ==> ReadLlu(p, sc, Decimal(n)) == sc.(llu := n, success := sc.success && InBounds(p, n))
    ensures n < TWO63 ==> ScanLd(Decimal(n)) == Some(n)
    ensures n < TWO31 ==> ScanD(Decimal(n)) == Some(n)
    ensures n < TWO64 ==> (NumberAllowed(p, n) <==> InBounds(p, n))
  {
    hide Decimal, ReadInteger;
    ReadDecimal(n);
    assert Decimal(n)[0] in Decimal(n);
    if n < TWO64 {
      UInt64Fits(n);
    }
    if n < TWO31 {
      Int32Fits(n);
    }
  }

  /** A number too long for its width reads as the largest that the library reader knows. */
  lemma LongNumbersSaturate(n: nat)
    ensures n >= TWO64 ==> ScanLlu(Decimal(n)) == Some(TWO64 - 1)
    ensures n >= TWO63 ==> ScanLd(Decimal(n)) == Some(TWO63 - 1) && ScanD(Decimal(n)) == Some(-1)
  {
    hide Decimal, ReadInteger;
    ReadDecimal(n);
  }

  /** So does a negative number for a signed width; for an unsigned one it wraps. */
  lemma NegativeNumbers(n: nat)
    ensures ScanLlu("-" + Decimal(n)) == Some(if n >= TWO64 then TWO64 - 1 else if n == 0 then 0 else TWO64 - n)
    ensures ScanLd("-" + Decimal(n)) == Some(if n > TWO63 then 0 - TWO63 else 0 - n)
    ensures n <= TWO31 ==> ScanD("-" + Decimal(n)) == Some(0 - n)
  {
    hide Decimal, ReadInteger;
    ReadInContext([], "-", n, []);
    assert [] + "-" + Decimal(n) + [] == "-" + Decimal(n);
  }

  lemma DecimalsPlain(ns: seq<nat>)
    ensures forall s :: s in Decimals(ns) ==> s != [] && ':' !in s && !StartsWithDash(s)
  {
    forall s | s in Decimals(ns)
      ensures s != [] && ':' !in s && !StartsWithDash(s)
    {
      assert AllDigits(s);
      assert s[0] in s;
    }
  }

  lemma JoinStart(parts: seq<string>, d: char)
    requires parts != [] && parts[0] != []
    ensures Join(parts, d) != [] && Join(parts, d)[0] == parts[0][0]
  {
  }

  lemma {:induction false} StoreEachCount(p: Parameter, c: Cell, sc: Scan, ns: seq<nat>)
    requires forall n :: n in ns ==> n < TWO64
    ensures var r := StoreEach(p, c, sc, Decimals(ns));
            && r.cell == AddNumbers(c, ns)
            && r.scan.success == (sc.success && forall n :: n in ns ==> InBounds(p, n))
    decreases |ns|
  {
    hide ReadLlu, WithNumber, Decimal, InBounds;
    if ns != [] {
      var first := InBounds(p, ns[0]);
      assert ns[0] in ns && forall n :: n in ns[1..] ==> n in ns;
      assert forall n :: n in ns ==> n == ns[0] || n in ns[1..];
      ScanDecimal(p, sc, ns[0]);
      StoreEachCount(p, WithNumber(c, ns[0]), sc.(llu := ns[0], success := sc.success && first), ns[1..]);
      assert Decimals(ns)[1..] == Decimals(ns[1..]);
    }
  }

  // ----- What is refused -----

  /** Values that an option with a value cannot take: none at all where one is mandatory,
      no digits where a number is read, no two parts where a pair is. */
  predicate RefusedValue(p: Parameter, values: seq<string>) {
    if values == [] || StartsWithDash(values[0]) then p.extra.Yes?
    else
      !p.extra.No?
      && match p.kind
         case NumericLlu => NoDigits(values[0])
         case NumericLd => NoDigits(values[0])
         case NumericD => NoDigits(values[0])
         case PairNumericStr =>
           var parts := Tokens(values[0], ':');
           |parts| != 2 || NoDigits(parts[0])
         case VectorNumeric => p.split && exists t :: t in Tokens(values[0], ':') && NoDigits(t)
         case _ => false
  }

  /** A number that cannot be read leaves the parameter with the register's old content. */
  lemma UnreadKeepsOld(p: Parameter, c: Cell, sc: Scan, s: string)
    requires NoDigits(s)
    ensures var r := Store(p, c, sc, s);
            && (p.kind.NumericLlu? ==> r == Stored(Cell(true, Number(sc.llu)), sc.(success := false), false))
            && (p.kind.NumericLd? ==> r == Stored(Cell(true, Number(sc.ld)), sc.(success := false), false))
            && (p.kind.NumericD? ==> r == Stored(Cell(true, Number(sc.d)), sc.(success := false), false))
  {
    NoDigitsNoNumber(s);
  }

  /** A flag ignores a value, and so does a vector of words that is to be split, or of numbers
      that is not. */
  lemma IgnoredValues(p: Parameter, c: Cell, sc: Scan, s: string)
    requires p.kind.Bool? || (p.kind.VectorStr? && p.split) || (p.kind.VectorNumeric? && !p.split)
    ensures Store(p, c, sc, s) == Stored(c, sc, false)
  {
  }

  /** Arguments that begin with an unknown option or with such a value. */
  ghost predicate Refused(registry: seq<Parameter>, bad: seq<string>) {
    && bad != []
    && ((forall k :: 0 <= k < |registry| ==> !IsOption(bad[0], registry[k].option))
        || exists k :: 0 <= k < |registry| && bad[0] == registry[k].option && RefusedValue(registry[k], bad[1..]))
  }

  /** They fail wherever they stand, whatever follows. */
  lemma RefusedFails(registry: seq<Parameter>, cells: seq<Cell>, sc: Scan, bad: seq<string>)
    requires |cells| == |registry| && PrefixesFirst(registry) && Refused(registry, bad)
    ensures !ParseRest(registry, cells, sc, bad).success
  {
    hide Store;
    var k := Match(registry, bad[0]);
    if k == |registry| {
      FailureIsFinal(registry, cells, sc.(success := false), bad[1..]);
    } else {
      OptionsFindThemselvesIff(registry);
      assert RefusedValue(registry[k], bad[1..]);
      if |bad| > 1 && !StartsWithDash(bad[1]) {
        assert bad[1..][0] == bad[1];
        RefusedStore(registry[k], cells[k], sc, bad[1]);
        var stored := Store(registry[k], cells[k], sc, bad[1]);
        if !stored.fatal {
          FailureIsFinal(registry, cells[k := stored.cell], stored.scan, bad[2..]);
        }
      }
    }
  }

  /** And they fail after any well-typed assignments, if they begin like an option. */
  lemma RefusedAnywhere(registry: seq<Parameter>, cells: seq<Cell>, sc: Scan, todo: seq<Assignment>, bad: seq<string>)
    requires |cells| == |registry| && DashedOptions(registry) && PrefixesFirst(registry)
    requires AllTyped(registry, todo) && Refused(registry, bad) && StartsWithDash(bad[0])
    ensures !ParseRest(registry, cells, sc, RenderAll(registry, todo) + bad).success
  {
    var sc' := ParseRendered(registry, cells, sc, todo, bad);
    RefusedFails(registry, AfterAll(registry, cells, todo), sc', bad);
  }

  lemma RefusedStore(p: Parameter, c: Cell, sc: Scan, s: string)
    requires !StartsWithDash(s) && RefusedValue(p, [s])
    ensures var r := Store(p, c, sc, s); r.fatal || !r.scan.success
  {
    if p.kind.VectorNumeric? {
      RefusedToken(p, c, sc, Tokens(s, ':'));
    } else if p.kind.PairNumericStr? {
      if |Tokens(s, ':')| == 2 {
        NoDigitsNoNumber(Tokens(s, ':')[0]);
      }
    } else {
      NoDigitsNoNumber(s);
    }
  }

  lemma {:induction false} RefusedToken(p: Parameter, c: Cell, sc: Scan, tokens: seq<string>)
    requires !sc.success || exists t :: t in tokens && NoDigits(t)
    ensures !StoreEach(p, c, sc, tokens).scan.success
    decreases |tokens|
  {
    if tokens != [] {
      var read := ReadLlu(p, sc, tokens[0]);
      if NoDigits(tokens[0]) {
        NoDigitsNoNumber(tokens[0]);
      } else if sc.success {
        var t :| t in tokens && NoDigits(t);
        assert t in tokens[1..];
      }
      RefusedToken(p, WithNumber(c, read.llu), read, tokens[1..]);
    }
  }

  /** Once the verdict is negative it stays so. */
  lemma {:induction false} FailureIsFinal(registry: seq<Parameter>, cells: seq<Cell>, sc: Scan, rest: seq<string>)
    requires |cells| == |registry| && !sc.success
    ensures !ParseRest(registry, cells, sc, rest).success
    decreases |rest|
  {
    hide Store;
    if rest != [] {
      var k := Match(registry, rest[0]);
      if k == |registry| {
        FailureIsFinal(registry, cells, sc.(success := false), rest[1..]);
      } else if registry[k].extra.No? {
        var flagged := if registry[k].kind.Bool? then cells[k := Cell(true, Flag(true))] else cells;
        FailureIsFinal(registry, flagged, sc, rest[1..]);
      } else if |rest| == 1 || StartsWithDash(rest[1]) {
        FailureIsFinal(registry, cells[k := cells[k].(isSet := true)], sc, rest[1..]);
      } else {
        StoreKeepsFailure(registry[k], cells[k], sc, rest[1]);
        var stored := Store(registry[k], cells[k], sc, rest[1]);
        FailureIsFinal(registry, cells[k := stored.cell], stored.scan, rest[2..]);
      }
    }
  }

  lemma StoreKeepsFailure(p: Parameter, c: Cell, sc: Scan, s: string)
    requires !sc.success
    ensures !Store(p, c, sc, s).scan.success
  {
    hide WithNumber, WithWord, Tokens, ScanLlu, ScanLd, ScanD, NumberAllowed, WordAllowed, StoreEach;
    EachKeepsFailure(p, c, sc, Tokens(s, ':'));
  }

  lemma {:induction false} EachKeepsFailure(p: Parameter, c: Cell, sc: Scan, tokens: seq<string>)
    requires !sc.success
    ensures !StoreEach(p, c, sc, tokens).scan.success
    decreases |tokens|
  {
    if tokens != [] {
      var read := ReadLlu(p, sc, tokens[0]);
      EachKeepsFailure(p, WithNumber(c, read.llu), read, tokens[1..]);
    }
  }

  // ----- What the cells hold in the end -----

  /** What was assigned to parameter `k`, in order. */
  function GivenTo(todo: seq<Assignment>, k: nat): (gs: seq<Given>) {
    if todo == [] then [] else (if todo[0].param == k then [todo[0].given] else []) + GivenTo(todo[1..], k)
  }

  function Accumulated(p: Parameter, c: Cell, gs: seq<Given>): (c': Cell)
    decreases |gs|
  {
    if gs == [] then c else Accumulated(p, Assigned(p, c, gs[0]), gs[1..])
  }

  /** A cell depends only on what was assigned to its own parameter. */
  lemma {:induction false} CellsAreIndependent(registry: seq<Parameter>, cells: seq<Cell>,
                                               todo: seq<Assignment>, k: nat)
    requires |cells| == |registry| && k < |registry|
    requires forall a :: a in todo ==> a.param < |registry|
    ensures AfterAll(registry, cells, todo)[k] == Accumulated(registry[k], cells[k], GivenTo(todo, k))
    decreases |todo|
  {
    if todo != [] {
      var a := todo[0];
      assert a in todo && forall b :: b in todo[1..] ==> b in todo;
      var cells' := cells[a.param := Assigned(registry[a.param], cells[a.param], a.given)];
      CellsAreIndependent(registry, cells', todo[1..], k);
      assert [] + GivenTo(todo[1..], k) == GivenTo(todo[1..], k);
      if a.param == k {
        assert ([a.given] + GivenTo(todo[1..], k))[1..] == GivenTo(todo[1..], k);
      }
    }
  }

  predicate Scalar(kind: Type) { !kind.VectorStr? && !kind.VectorNumeric? }

  /** The value that a scalar takes from an assignment. */
  function ScalarValue(g: Given): (v: Value)
    requires !g.Counts?
  {
    match g
    case Nothing => Flag(true)
    case Text(t) => Word(t)
    case Count(n) => Number(n)
    case Pairing(n, t) => Pair(n, t)
  }

  /** A scalar ends at its last value. */
  lemma {:induction false} LastValueWins(p: Parameter, c: Cell, gs: seq<Given>)
    requires Scalar(p.kind) && gs != [] && !gs[|gs| - 1].Counts?
    requires gs[|gs| - 1].Nothing? ==> p.kind.Bool? && !p.extra.Possible?
    ensures Accumulated(p, c, gs) == Cell(true, ScalarValue(gs[|gs| - 1]))
    decreases |gs|
  {
    if |gs| > 1 {
      LastValueWins(p, Assigned(p, c, gs[0]), gs[1..]);
    }
  }

  function AllCounts(gs: seq<Given>): (ns: seq<nat>) {
    if gs == [] then [] else (if gs[0].Counts? then gs[0].counts else []) + AllCounts(gs[1..])
  }

  function AllTexts(gs: seq<Given>): (ws: seq<string>) {
    if gs == [] then [] else (if gs[0].Text? then [gs[0].text] else []) + AllTexts(gs[1..])
  }

  /** A vector holds these elements, in order. */
  ghost predicate HoldsNumbers(c: Cell, all: multiset<nat>) {
    c.isSet && c.value.Numbers? && Ordered(c.value.numbers, BY_NUMBER) && multiset(c.value.numbers) == all
  }

  ghost predicate HoldsWords(c: Cell, all: multiset<string>) {
    c.isSet && c.value.Words? && Ordered(c.value.words, BY_TEXT) && multiset(c.value.words) == all
  }

  lemma NumberAdded(c: Cell, x: nat)
    ensures HoldsNumbers(WithNumber(c, x), multiset(NumbersSet(c)) + multiset{x})
    ensures multiset(NumbersSet(WithNumber(c, x))) == multiset(NumbersSet(c)) + multiset{x}
  {
    hide TotalOrder, Ordered;
    OrdersAreTotal();
    SortOrders(NumbersSet(c) + [x], BY_NUMBER);
  }

  lemma WordAdded(c: Cell, s: string)
    ensures HoldsWords(WithWord(c, s), multiset(WordsSet(c)) + multiset{s})
    ensures multiset(WordsSet(WithWord(c, s))) == multiset(WordsSet(c)) + multiset{s}
  {
    hide TotalOrder, Ordered;
    OrdersAreTotal();
    SortOrders(WordsSet(c) + [s], BY_TEXT);
  }

  /** A vector of numbers ends as the sorted collection of all that was assigned. */
  lemma {:induction false} NumbersAreSortedUnion(p: Parameter, c: Cell, gs: seq<Given>)
    requires gs != [] && forall g :: g in gs ==> g.Counts? && g.counts != []
    ensures HoldsNumbers(Accumulated(p, c, gs), multiset(NumbersSet(c)) + multiset(AllCounts(gs)))
    decreases |gs|
  {
    hide Ordered, WithNumber;
    var ns := gs[0].counts;
    assert gs[0] in gs && forall g :: g in gs[1..] ==> g in gs;
    AddedNumbers(c, ns);
    assert AllCounts(gs) == ns + AllCounts(gs[1..]);
    if |gs| > 1 {
      NumbersAreSortedUnion(p, AddNumbers(c, ns), gs[1..]);
    } else {
      assert AllCounts(gs[1..]) == [];
    }
  }

  lemma {:induction false} AddedNumbers(c: Cell, ns: seq<nat>)
    requires ns != []
    ensures HoldsNumbers(AddNumbers(c, ns), multiset(NumbersSet(c)) + multiset(ns))
    decreases |ns|
  {
    hide HoldsNumbers, NumbersSet, WithNumber;
    NumberAdded(c, ns[0]);
    assert ns == [ns[0]] + ns[1..];
    if |ns| > 1 {
      AddedNumbers(WithNumber(c, ns[0]), ns[1..]);
      assert multiset(NumbersSet(c)) + multiset{ns[0]} + multiset(ns[1..]) == multiset(NumbersSet(c)) + multiset(ns);
    } else {
      assert multiset(ns) == multiset{ns[0]};
    }
  }

  /** So does a vector of words. */
  lemma {:induction false} WordsAreSortedUnion(p: Parameter, c: Cell, gs: seq<Given>)
    requires p.kind.VectorStr? && gs != [] && forall g :: g in gs ==> g.Text?
    ensures HoldsWords(Accumulated(p, c, gs), multiset(WordsSet(c)) + multiset(AllTexts(gs)))
    decreases |gs|
  {
    hide HoldsWords, WordsSet, WithWord;
    assert gs[0] in gs && forall g :: g in gs[1..] ==> g in gs;
    WordAdded(c, gs[0].text);
    assert AllTexts(gs) == [gs[0].text] + AllTexts(gs[1..]);
    if |gs| > 1 {
      WordsAreSortedUnion(p, WithWord(c, gs[0].text), gs[1..]);
      assert multiset(WordsSet(c)) + multiset{gs[0].text} + multiset(AllTexts(gs[1..]))
          == multiset(WordsSet(c)) + multiset(AllTexts(gs));
    } else {
      assert AllTexts(gs) == [gs[0].text] + [];
      assert multiset(AllTexts(gs)) == multiset{gs[0].text};
    }
  }

  /** The whole command line: rendering and parsing succeeds and leaves every scalar at
      its last value and every vector as the sorted collection of all its values, without
      its defaults; parameters that were not assigned keep their cells. */
  lemma CommandLineRoundTrip(registry: seq<Parameter>, cells: seq<Cell>, sc: Scan, todo: seq<Assignment>, k: nat)
    requires |cells| == |registry| && DashedOptions(registry) && PrefixesFirst(registry)
    requires AllAssignmentsFit(registry, todo) && sc.success
    requires k < |registry| && !cells[k].isSet && registry[k].extra != Possible
    ensures var r := ParseRest(registry, cells, sc, RenderAll(registry, todo));
            var gs, p := GivenTo(todo, k), registry[k];
            && r.success
            && (gs == [] ==> r.cells[k] == cells[k])
            && (gs != [] && Scalar(p.kind) && (p.extra.No? ==> p.kind.Bool?) ==>
                  !gs[|gs| - 1].Counts? && r.cells[k] == Cell(true, ScalarValue(gs[|gs| - 1])))
            && (gs != [] && p.kind.VectorNumeric? && p.extra.Yes? ==>
                  HoldsNumbers(r.cells[k], multiset(AllCounts(gs))))
            && (gs != [] && p.kind.VectorStr? && p.extra.Yes? ==>
                  HoldsWords(r.cells[k], multiset(AllTexts(gs))))
  {
    var gs, p := GivenTo(todo, k), registry[k];
    ParseUndoesRender(registry, cells, sc, todo);
    CellsAreIndependent(registry, cells, todo, k);
    GivenTyped(registry, todo, k);
    if gs != [] {
      assert gs[|gs| - 1] in gs;
      if Scalar(p.kind) && (p.extra.No? ==> p.kind.Bool?) {
        LastValueWins(p, cells[k], gs);
      } else if p.kind.VectorNumeric? && p.extra.Yes? {
        NumbersAreSortedUnion(p, cells[k], gs);
      } else if p.kind.VectorStr? && p.extra.Yes? {
        WordsAreSortedUnion(p, cells[k], gs);
      }
    }
  }

  lemma {:induction false} GivenTyped(registry: seq<Parameter>, todo: seq<Assignment>, k: nat)
    requires AllTyped(registry, todo)
    ensures forall g :: g in GivenTo(todo, k) ==> Typed(registry, Assignment(k, g))
  {
    if todo != [] {
      assert todo[0] in todo && forall b :: b in todo[1..] ==> b in todo;
      GivenTyped(registry, todo[1..], k);
    }
  }
}
