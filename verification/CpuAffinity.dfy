/** The option that pins threads to CPU cores: four lists of cores and ranges. */
module CpuAffinity {
  import opened Machine
  import opened Text

  /** The library's conversion to int, which throws (None) without digits or out of range. */
  function Stoi(s: string): (v: Option<int>) {
    var v := ReadInteger(s);
    if v.Some? && 0 - TWO31 <= v.value < TWO31 then v else None
  }

  /** The cores from `lo` to `hi`. */
  function UpTo(lo: int, hi: int): (s: seq<int>)
    ensures |s| == Max(0, hi - lo + 1) && forall i :: 0 <= i < |s| ==> s[i] == lo + i
    decreases hi - lo + 1
  {
    if lo > hi then [] else UpTo(lo, hi - 1) + [hi]
  }

  /** What a list comes to. In a range up to the largest int the loop variable overflows
      instead of ending the loop, which leaves the result undefined. */
  datatype Parsed = Cores(cores: seq<int>) | Throws | Overflows

  const INT_MAX: int := TWO31 - 1

  /** The cores from one end to the other, whichever comes first. */
  function Span(a: int, b: int): (cores: Parsed) {
    if Max(a, b) == INT_MAX then Overflows else Cores(UpTo(Min(a, b), Max(a, b)))
  }

  /** A token is one core or a range, whose ends may come in either order. */
  function TokenCores(token: string): (cores: Parsed) {
    var dash := Find(token, '-');
    if dash < |token| then
      var start, end := Stoi(token[..dash]), Stoi(token[dash + 1..]);
      if start.Some? && end.Some? then Span(start.value, end.value) else Throws
    else
      var core := Stoi(token);
      if core.Some? then Cores([core.value]) else Throws
  }

  /** Both in turn: the first that does not come to cores decides. */
  function Append(a: Parsed, b: Parsed): (c: Parsed) {
    if !a.Cores? then a else if !b.Cores? then b else Cores(a.cores + b.cores)
  }

  function CoresOf(tokens: seq<string>): (cores: Parsed) {
    if tokens == [] then Cores([]) else Append(TokenCores(tokens[0]), CoresOf(tokens[1..]))
  }

  /** What a list of cores means. */
  function ListCores(str: string): (cores: Parsed) { CoresOf(Lines(str, ',')) }

  method ParseCoreList(str: string) returns (cores: Parsed)
    ensures cores == ListCores(str)
  {
    hide TokenCores;
    cores := Cores([]);
    var rest := str;
    assert ListCores(str).Cores? ==> [] + ListCores(str).cores == ListCores(str).cores;
    while rest != []
      invariant cores.Cores? && ListCores(str) == Append(cores, ListCores(rest))
      decreases |rest|
    {
      var cut := Find(rest, ',');
      var token := rest[..cut];
      assert Lines(rest, ',')[1..] == Lines(Rest(rest, cut), ',');
      rest := Rest(rest, cut);
      Regroup(cores, TokenCores(token), ListCores(rest));
      cores := AddToken(cores.cores, token);
      if !cores.Cores? {
        return;
      }
    }
    assert cores.cores + [] == cores.cores;
  }

  /** Appends what one token stands for, core by core. */
  method AddToken(before: seq<int>, token: string) returns (cores: Parsed)
    ensures cores == Append(Cores(before), TokenCores(token))
  {
    var result := before;
    var dash := Find(token, '-');
    if dash < |token| {
      var start, end := Stoi(token[..dash]), Stoi(token[dash + 1..]);
      if start.None? || end.None? {
        return Throws;
      }
      if start.value > end.value {
        start, end := end, start;
      }
      var i := start.value;
      while i <= end.value
        invariant start.value <= i <= end.value + 1 && i <= INT_MAX
        invariant result == before + UpTo(start.value, i - 1)
      {
        result := result + [i];
        if i == INT_MAX {
          return Overflows;
        }
        i := i + 1;
      }
    } else {
      var core := Stoi(token);
      if core.None? {
        return Throws;
      }
      result := result + [core.value];
    }
    cores := Cores(result);
  }

  lemma Regroup(a: Parsed, b: Parsed, c: Parsed)
    ensures Append(a, Append(b, c)) == Append(Append(a, b), c)
  {
    if a.Cores? && b.Cores? && c.Cores? {
      assert a.cores + (b.cores + c.cores) == a.cores + b.cores + c.cores;
    }
  }

  datatype Outcome = Accepted | Rejected | Undefined

  class ThreadCPUAffinity {
    var coresMain: seq<int>
    var coresMainStr: string
    var coresReceive: seq<int>
    var coresReceiveStr: string
    var coresDb: seq<int>
    var coresDbStr: string
    var coresEvent: seq<int>
    var coresEventStr: string
    var isSet: bool

    constructor ()
      ensures !isSet
    {
      isSet := false;
    }

    /** Takes the four lists in order; a bad list leaves the ones before it in place. */
    method ParseAffinities(arg: string) returns (outcome: Outcome)
      modifies this
      ensures var parts := Lines(arg, ':');
              && outcome == OutcomeOf(parts)
              && (outcome.Accepted? <==> Reaches(parts, 3))
              && isSet == (old(isSet) || outcome.Accepted?)
              && (coresMain, coresMainStr)
                 == (if Reaches(parts, 0) then PartAt(parts, 0) else old((coresMain, coresMainStr)))
              && (coresReceive, coresReceiveStr)
                 == (if Reaches(parts, 1) then PartAt(parts, 1) else old((coresReceive, coresReceiveStr)))
              && (coresDb, coresDbStr)
                 == (if Reaches(parts, 2) then PartAt(parts, 2) else old((coresDb, coresDbStr)))
              && (coresEvent, coresEventStr)
                 == (if Reaches(parts, 3) then PartAt(parts, 3) else old((coresEvent, coresEventStr)))
    {
      hide Lines, ListCores;
      var parts := Split(arg);
      if |parts| != 4 {
        return Rejected;
      }
      var cores := ParseCoreList(parts[0]);
      if !cores.Cores? {
        return Failure(cores);
      }
      coresMain, coresMainStr := cores.cores, parts[0];
      cores := ParseCoreList(parts[1]);
      if !cores.Cores? {
        return Failure(cores);
      }
      coresReceive, coresReceiveStr := cores.cores, parts[1];
      cores := ParseCoreList(parts[2]);
      if !cores.Cores? {
        return Failure(cores);
      }
      coresDb, coresDbStr := cores.cores, parts[2];
      cores := ParseCoreList(parts[3]);
      if !cores.Cores? {
        return Failure(cores);
      }
      coresEvent, coresEventStr := cores.cores, parts[3];
      isSet, outcome := true, Accepted;
    }
  }

  /** An exception is caught and reported; what an overflowing loop does is not defined. */
  function Failure(cores: Parsed): (outcome: Outcome)
    requires !cores.Cores?
  {
    if cores.Throws? then Rejected else Undefined
  }

  /** The first of the four lists that fails decides. */
  function OutcomeOf(parts: seq<string>): (outcome: Outcome) {
    if |parts| != 4 then Rejected
    else if !ListCores(parts[0]).Cores? then Failure(ListCores(parts[0]))
    else if !ListCores(parts[1]).Cores? then Failure(ListCores(parts[1]))
    else if !ListCores(parts[2]).Cores? then Failure(ListCores(parts[2]))
    else if !ListCores(parts[3]).Cores? then Failure(ListCores(parts[3]))
    else Accepted
  }

  method Split(arg: string) returns (parts: seq<string>)
    ensures parts == Lines(arg, ':')
  {
    parts := [];
    var rest := arg;
    while rest != []
      invariant Lines(arg, ':') == parts + Lines(rest, ':')
      decreases |rest|
    {
      var cut := Find(rest, ':');
      parts := parts + [rest[..cut]];
      rest := Rest(rest, cut);
    }
  }

  /** There are four parts and those up to number `j` are good. */
  predicate Reaches(parts: seq<string>, j: nat) {
    |parts| == 4 && forall i :: 0 <= i <= Min(j, 3) ==> ListCores(parts[i]).Cores?
  }

  function PartAt(parts: seq<string>, j: nat): (part: (seq<int>, string))
    requires j <= 3 && Reaches(parts, j)
  {
    (ListCores(parts[j]).cores, parts[j])
  }

  // ----- Printing, and back -----

  datatype Item = Core(core: nat) | Range(from: nat, to: nat)

  predicate InRange(item: Item) {
    match item
    case Core(c) => c < TWO31
    case Range(a, b) => a < TWO31 && b < TWO31
  }

  predicate AllInRange(items: seq<Item>) { forall item :: item in items ==> InRange(item) }

  function Print(item: Item): (s: string) {
    match item
    case Core(c) => Decimal(c)
    case Range(a, b) => Decimal(a) + ['-'] + Decimal(b)
  }

  function PrintAll(items: seq<Item>): (parts: seq<string>)
    ensures |parts| == |items| && forall i :: 0 <= i < |parts| ==> parts[i] == Print(items[i])
  {
    seq(|items|, i requires 0 <= i < |items| => Print(items[i]))
  }

  function PrintList(items: seq<Item>): (s: string)
    requires items != []
  {
    Join(PrintAll(items), ',')
  }

  /** A range that goes up to the largest int. */
  predicate EndsAtTop(item: Item) { item.Range? && Max(item.from, item.to) == INT_MAX }

  predicate AnyEndsAtTop(items: seq<Item>) { exists item :: item in items && EndsAtTop(item) }

  /** The cores that an item stands for. */
  function Expand(item: Item): (cores: seq<int>) {
    match item
    case Core(c) => [c]
    case Range(a, b) => UpTo(Min(a, b), Max(a, b))
  }

  function ExpandAll(items: seq<Item>): (cores: seq<int>) {
    if items == [] then [] else Expand(items[0]) + ExpandAll(items[1..])
  }

  /** What a printed list is to come to. */
  function Meaning(items: seq<Item>): (cores: Parsed) {
    if AnyEndsAtTop(items) then Overflows else Cores(ExpandAll(items))
  }

  lemma TokenRoundTrip(item: Item)
    requires InRange(item)
    ensures TokenCores(Print(item)) == if EndsAtTop(item) then Overflows else Cores(Expand(item))
    ensures Print(item) != [] && ',' !in Print(item) && ':' !in Print(item)
  {
    match item
    case Core(c) =>
      NoDash(Decimal(c));
      ReadDecimal(c);
    case Range(a, b) =>
      var s := Print(item);
      NoDash(Decimal(a));
      FindAfter(Decimal(a), '-', Decimal(b));
      assert s[..|Decimal(a)|] == Decimal(a) && s[|Decimal(a)| + 1..] == Decimal(b);
      ReadDecimal(a);
      ReadDecimal(b);
  }

  lemma NoDash(s: string)
    requires AllDigits(s)
    ensures '-' !in s && ',' !in s && ':' !in s && Find(s, '-') == |s|
  {
  }

  lemma {:induction false} CoresOfPrinted(items: seq<Item>)
    requires AllInRange(items)
    ensures CoresOf(PrintAll(items)) == Meaning(items)
  {
    hide TokenCores, Print, Expand, EndsAtTop;
    if items != [] {
      assert items[0] in items && forall item :: item in items[1..] ==> item in items;
      assert forall item :: item in items ==> item == items[0] || item in items[1..];
      TokenRoundTrip(items[0]);
      CoresOfPrinted(items[1..]);
      assert PrintAll(items)[1..] == PrintAll(items[1..]);
    }
  }

  /** Parsing a printed list gives the concatenated expansions, unless a range in it goes
      up to the largest int. */
  lemma ListRoundTrip(items: seq<Item>)
    requires items != [] && AllInRange(items)
    ensures ListCores(PrintList(items)) == Meaning(items)
    ensures ListCores(PrintList(items)) == Cores(ExpandAll(items)) <==> !AnyEndsAtTop(items)
    ensures ':' !in PrintList(items) && PrintList(items) != []
  {
    hide Print;
    var parts := PrintAll(items);
    forall p | p in parts
      ensures p != [] && ',' !in p && ':' !in p
    {
      var i :| 0 <= i < |parts| && p == parts[i];
      assert items[i] in items;
      TokenRoundTrip(items[i]);
    }
    CutsUndoJoin(parts, ',');
    JoinAvoids(parts, ',', ':');
    CoresOfPrinted(items);
  }

  /** One such range is enough, whichever way round. */
  lemma TopRangeOverflows()
    ensures ListCores(PrintList([Range(2147483646, 2147483647)])) == Overflows
  {
    var items := [Range(2147483646, 2147483647)];
    assert items[0] in items && EndsAtTop(items[0]);
    ListRoundTrip(items);
  }

  /** The argument that prints four lists. */
  function PrintArgument(main: seq<Item>, receive: seq<Item>, db: seq<Item>, event: seq<Item>): (arg: string)
    requires main != [] && receive != [] && db != [] && event != []
  {
    Join([PrintList(main), PrintList(receive), PrintList(db), PrintList(event)], ':')
  }

  /** Four nonempty lists printed as one argument come back, each in its own field, if and
      only if no range goes up to the largest int; otherwise the result is not defined. */
  lemma AffinityRoundTrip(main: seq<Item>, receive: seq<Item>, db: seq<Item>, event: seq<Item>)
    requires main != [] && receive != [] && db != [] && event != []
    requires AllInRange(main) && AllInRange(receive) && AllInRange(db) && AllInRange(event)
    ensures var parts := Lines(PrintArgument(main, receive, db, event), ':');
            var tops := AnyEndsAtTop(main) || AnyEndsAtTop(receive) || AnyEndsAtTop(db) || AnyEndsAtTop(event);
            && OutcomeOf(parts) == (if tops then Undefined else Accepted)
            && (!tops ==>
                  && Reaches(parts, 3)
                  && PartAt(parts, 0) == (ExpandAll(main), PrintList(main))
                  && PartAt(parts, 1) == (ExpandAll(receive), PrintList(receive))
                  && PartAt(parts, 2) == (ExpandAll(db), PrintList(db))
                  && PartAt(parts, 3) == (ExpandAll(event), PrintList(event)))
  {
    hide ListCores, PrintList, ExpandAll, InRange, AnyEndsAtTop, Lines;
    ListRoundTrip(main);
    ListRoundTrip(receive);
    ListRoundTrip(db);
    ListRoundTrip(event);
    var parts := [PrintList(main), PrintList(receive), PrintList(db), PrintList(event)];
    CutsUndoJoin(parts, ':');
  }

  function Reversed(item: Item): (r: Item) {
    match item
    case Core(_) => item
    case Range(a, b) => Range(b, a)
  }

  /** Turning any of the ranges round changes nothing. */
  lemma ReversedRangesParseAlike(items: seq<Item>, items': seq<Item>)
    requires items != [] && AllInRange(items)
    requires |items| == |items'|
    requires forall i :: 0 <= i < |items| ==> items'[i] == items[i] || items'[i] == Reversed(items[i])
    ensures ListCores(PrintList(items)) == ListCores(PrintList(items'))
  {
    forall item | item in items'
      ensures InRange(item)
    {
      var i :| 0 <= i < |items'| && items'[i] == item;
      assert items[i] in items;
    }
    ListRoundTrip(items);
    ListRoundTrip(items');
    ReversedMeanAlike(items, items');
  }

  lemma {:induction false} ReversedMeanAlike(items: seq<Item>, items': seq<Item>)
    requires |items| == |items'|
    requires forall i :: 0 <= i < |items| ==> items'[i] == items[i] || items'[i] == Reversed(items[i])
    ensures ExpandAll(items) == ExpandAll(items') && (AnyEndsAtTop(items) <==> AnyEndsAtTop(items'))
  {
    if items != [] {
      assert items == [items[0]] + items[1..] && items' == [items'[0]] + items'[1..];
      assert EndsAtTop(items[0]) <==> EndsAtTop(items'[0]);
      ReversedMeanAlike(items[1..], items'[1..]);
    }
  }

  // ----- What is refused -----

  /** No number at all, or one that an int does not hold. */
  ghost predicate BadNumber(s: string) { NoDigits(s) || exists n: nat :: n >= TWO31 && s == Decimal(n) }

  lemma BadNumberThrows(s: string)
    requires BadNumber(s)
    ensures Stoi(s).None?
  {
    if NoDigits(s) {
      NoDigitsNoNumber(s);
    } else {
      var n: nat :| n >= TWO31 && s == Decimal(n);
      ReadDecimal(n);
    }
  }

  /** A signed number is read exactly while it is an int. */
  lemma SignedNumbers(sign: string, n: nat)
    requires sign in ["", "+", "-"]
    ensures Stoi(sign + Decimal(n))
         == if sign == "-" then (if n <= TWO31 then Some(0 - n) else None)
            else if n < TWO31 then Some(n) else None
  {
    hide ReadInteger, Decimal;
    ReadInContext([], sign, n, []);
    assert [] + sign + Decimal(n) + [] == sign + Decimal(n);
  }

  /** A list fails at its first bad token, alone or on either side of a range, if everything
      before it is good. */
  lemma BadTokenThrows(before: seq<Item>, bad: string, after: seq<string>)
    requires AllInRange(before) && !AnyEndsAtTop(before)
    requires BadToken(bad)
    ensures CoresOf(PrintAll(before) + [bad] + after) == Throws
  {
    var tokens := PrintAll(before) + [bad] + after;
    CoresOfPrinted(before);
    CoresConcat(PrintAll(before), [bad] + after);
    assert tokens == PrintAll(before) + ([bad] + after);
    assert ([bad] + after)[0] == bad;
    var dash := Find(bad, '-');
    if dash < |bad| {
      assert BadNumber(bad[..dash]) || BadNumber(bad[dash + 1..]);
      if BadNumber(bad[..dash]) {
        BadNumberThrows(bad[..dash]);
      } else {
        BadNumberThrows(bad[dash + 1..]);
      }
    } else {
      BadNumberThrows(bad);
    }
  }

  /** Cut at its first dash, if it has one, some part of the token is no int. */
  ghost predicate BadToken(token: string) {
    if '-' !in token then BadNumber(token)
    else
      var dash := Find(token, '-');
      dash < |token| && (BadNumber(token[..dash]) || BadNumber(token[dash + 1..]))
  }

  lemma {:induction false} CoresConcat(a: seq<string>, b: seq<string>)
    ensures CoresOf(a + b) == Append(CoresOf(a), CoresOf(b))
  {
    hide TokenCores;
    if a == [] {
      assert a + b == b;
      assert CoresOf(b).Cores? ==> [] + CoresOf(b).cores == CoresOf(b).cores;
    } else {
      CoresConcat(a[1..], b);
      assert (a + b)[1..] == a[1..] + b;
      Regroup(TokenCores(a[0]), CoresOf(a[1..]), CoresOf(b));
    }
  }
}
