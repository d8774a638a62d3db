/** Numbered placeholder lists: "$2,$3,$4" binds the second, third and fourth argument. */
module Placeholders {
  import opened Common

  // ----- Decimals -----

  function Digit(d: nat): char
    requires d < 10
  {
    '0' + d as char
  }

  predicate IsDigit(c: char) {
    '0' <= c <= '9'
  }

  function Decimal(n: nat): (s: string)
    ensures s != [] && forall i :: 0 <= i < |s| ==> IsDigit(s[i])
  {
    if n < 10 then [Digit(n)] else Decimal(n / 10) + [Digit(n % 10)]
  }

  function ReadDecimal(s: string): Option<int> {
    if s == [] then None
    else
      var last := s[|s| - 1];
      if !IsDigit(last) then None
      else if |s| == 1 then Some((last - '0') as int)
      else
        var front := ReadDecimal(s[..|s| - 1]);
        if front.None? then None else Some(10 * front.value + (last - '0') as int)
  }

  lemma {:induction false} DecimalRoundTrip(n: nat)
    ensures ReadDecimal(Decimal(n)) == Some(n)
  {
    if n >= 10 {
      DecimalRoundTrip(n / 10);
      assert Decimal(n)[..|Decimal(n)| - 1] == Decimal(n / 10);
    }
  }

  /** A placeholder: '$' and the number, with its sign if negative. */
  function Placeholder(n: int): string {
    if n < 0 then "$-" + Decimal(-n) else "$" + Decimal(n)
  }

  function ReadPlaceholder(s: string): Option<int> {
    if |s| < 2 || s[0] != '$' then None
    else if s[1] == '-' then
      var n := ReadDecimal(s[2..]);
      if n.None? then None else Some(-n.value)
    else
      var n := ReadDecimal(s[1..]);
      if n.None? then None else Some(n.value)
  }

  lemma PlaceholderRoundTrip(n: int)
    ensures ReadPlaceholder(Placeholder(n)) == Some(n)
    ensures ',' !in Placeholder(n)
  {
    var digits := Decimal(if n < 0 then -n else n);
    DecimalRoundTrip(if n < 0 then -n else n);
    assert IsDigit(digits[0]);
    assert n < 0 ==> Placeholder(n)[2..] == digits;
    assert n >= 0 ==> Placeholder(n)[1..] == digits;
  }

  // ----- Commas -----

  function Join(parts: seq<string>): string {
    if parts == [] then ""
    else if |parts| == 1 then parts[0]
    else parts[0] + "," + Join(parts[1..])
  }

  function SplitAtCommas(s: string): (parts: seq<string>)
    ensures parts != []
  {
    if s == [] then [[]]
    else
      var rest := SplitAtCommas(s[1..]);
      if s[0] == ',' then [[]] + rest else [[s[0]] + rest[0]] + rest[1..]
  }

  lemma {:induction false} SplitFirst(part: string, rest: string)
    requires ',' !in part
    ensures SplitAtCommas(part) == [part]
    ensures SplitAtCommas(part + "," + rest) == [part] + SplitAtCommas(rest)
  {
    var s := part + "," + rest;
    if part == [] {
      assert s[1..] == rest;
    } else {
      SplitFirst(part[1..], rest);
      assert s[1..] == part[1..] + "," + rest;
      assert part == [part[0]] + part[1..];
    }
  }

  /** Splitting undoes joining. */
  lemma {:induction false} SplitUndoesJoin(parts: seq<string>)
    requires parts != [] && forall i :: 0 <= i < |parts| ==> ',' !in parts[i]
    ensures SplitAtCommas(Join(parts)) == parts
  {
    if |parts| == 1 {
      SplitFirst(parts[0], "");
    } else {
      SplitUndoesJoin(parts[1..]);
      SplitFirst(parts[0], Join(parts[1..]));
    }
  }

  // ----- The list -----

  function NumbersFrom(start: int, count: nat): seq<int> {
    seq(count, i => start + i)
  }

  function PlaceholdersFrom(start: int, count: nat): seq<string> {
    seq(count, i => Placeholder(start + i))
  }

  function ReadAll(parts: seq<string>): Option<seq<int>> {
    if parts == [] then Some([])
    else
      var first, rest := ReadPlaceholder(parts[0]), ReadAll(parts[1..]);
      if first.None? || rest.None? then None else Some([first.value] + rest.value)
  }

  /** The numbers in a list, if it is one; the empty list is the empty text. */
  function ReadList(list: string): Option<seq<int>> {
    if list == "" then Some([]) else ReadAll(SplitAtCommas(list))
  }

  lemma PlaceholdersStep(start: int, count: nat)
    requires count > 0
    ensures PlaceholdersFrom(start, count) == [Placeholder(start)] + PlaceholdersFrom(start + 1, count - 1)
  {
    forall i | 1 <= i < count
      ensures PlaceholdersFrom(start, count)[i] == PlaceholdersFrom(start + 1, count - 1)[i - 1]
    {
      assert start + i == start + 1 + (i - 1);
    }
  }

  lemma ReadFirst(n: int, rest: seq<string>)
    ensures var read := ReadAll(rest);
            ReadAll([Placeholder(n)] + rest) == if read.None? then None else Some([n] + read.value)
  {
    PlaceholderRoundTrip(n);
    assert ([Placeholder(n)] + rest)[1..] == rest;
  }

  lemma NumbersStep(start: int, count: nat)
    requires count > 0
    ensures NumbersFrom(start, count) == [start] + NumbersFrom(start + 1, count - 1)
  {
  }

  lemma {:induction false} ReadAllPlaceholders(start: int, count: nat)
    ensures ReadAll(PlaceholdersFrom(start, count)) == Some(NumbersFrom(start, count))
    decreases count
  {
    if count == 0 {
      assert PlaceholdersFrom(start, count) == [] && NumbersFrom(start, count) == [];
    } else {
      ReadAllPlaceholders(start + 1, count - 1);
      PlaceholdersStep(start, count);
      ReadFirst(start, PlaceholdersFrom(start + 1, count - 1));
      NumbersStep(start, count);
    }
  }

  lemma ListRoundTrip(start: int, count: nat)
    ensures ReadList(Join(PlaceholdersFrom(start, count))) == Some(NumbersFrom(start, count))
  {
    var parts := PlaceholdersFrom(start, count);
    assert |parts| == count && |NumbersFrom(start, count)| == count;
    forall i | 0 <= i < count
      ensures ',' !in parts[i]
    {
      PlaceholderRoundTrip(start + i);
    }
    if count > 0 {
      SplitUndoesJoin(parts);
      ReadAllPlaceholders(start, count);
      assert parts[0] == Placeholder(start);
      assert |Join(parts)| >= |parts[0]| > 0;
    }
  }

  /** Splitting the list and reading its decimals gives back exactly start, start + 1, and so on. */
  method BuildPlaceholderList(start: int, count: nat) returns (list: string)
    ensures ReadList(list) == Some(NumbersFrom(start, count))
    ensures list == Join(PlaceholdersFrom(start, count))
  {
    var placeholders: seq<string> := [];
    for i := 0 to count
      invariant placeholders == PlaceholdersFrom(start, i)
    {
      placeholders := placeholders + [Placeholder(start + i)];
    }
    ListRoundTrip(start, count);
    list := Join(placeholders);
  }

  /** How a list is written: a dollar sign before each number, a comma between two. */
  lemma ListsAreWritten()
    ensures Join(PlaceholdersFrom(1, 0)) == ""
    ensures Join(PlaceholdersFrom(3, 1)) == "$3"
    ensures Join(PlaceholdersFrom(9, 2)) == "$9,$10"
  {
    assert PlaceholdersFrom(3, 1) == [Placeholder(3)];
    assert Placeholder(3) == "$3" && Placeholder(9) == "$9" && Placeholder(10) == "$10";
    assert PlaceholdersFrom(9, 2) == ["$9", "$10"];
    assert Join(["$10"]) == "$10" && ["$9", "$10"][1..] == ["$10"];
  }

  // ----- The statements that use it -----

  /** Which statement, with the arguments it takes before the ids. */
  datatype Statement =
    | ClaimTickets
    | SetStatus(status: string)
    | SetStatusAndGame(status: string, gameId: string)
    | MarkLeft(now: string)

  function FixedArguments(st: Statement): seq<string> {
    match st
    case ClaimTickets => []
    case SetStatus(status) => [status]
    case SetStatusAndGame(status, gameId) => [status, gameId]
    case MarkLeft(now) => [now]
  }

  /** The numbers written out in the statement's own text. */
  function FixedNumbers(st: Statement): set<int> {
    match st
    case ClaimTickets => {}
    case SetStatus(_) => {1}
    case SetStatusAndGame(_, _) => {1, 2}
    case MarkLeft(_) => {1}
  }

  /** The first number of the id list, as written in each caller. */
  function ListStart(st: Statement): int {
    match st
    case ClaimTickets => 1
    case SetStatus(_) => 2
    case SetStatusAndGame(_, _) => 3
    case MarkLeft(_) => 2
  }

  /** `$n` stands for the n-th argument, counting from one. */
  predicate Binds(arguments: seq<string>, n: int, value: string) {
    1 <= n <= |arguments| && arguments[n - 1] == value
  }

  /**
   The arguments and the list of a statement over ids: the i-th placeholder binds the i-th id, and
   the numbers used, fixed or listed, are exactly those of the arguments.
   */
  method BindStatement(st: Statement, ids: seq<string>) returns (list: string, arguments: seq<string>)
    ensures ReadList(list).Some? && arguments == FixedArguments(st) + ids
    ensures var numbers := ReadList(list).value;
            && |numbers| == |ids|
            && (forall i :: 0 <= i < |ids| ==> Binds(arguments, numbers[i], ids[i]))
            && (forall n :: n in numbers || n in FixedNumbers(st) <==> 1 <= n <= |arguments|)
            && (forall n :: n in numbers ==> n !in FixedNumbers(st))
    ensures forall i :: 0 <= i < |FixedArguments(st)| ==>
              i + 1 in FixedNumbers(st) && Binds(arguments, i + 1, FixedArguments(st)[i])
    ensures match st
            case ClaimTickets => arguments == ids
            case SetStatus(status) => arguments == [status] + ids
            case SetStatusAndGame(status, gameId) => arguments == [status, gameId] + ids
            case MarkLeft(now) => arguments == [now] + ids
  {
    list := BuildPlaceholderList(ListStart(st), |ids|);
    arguments := FixedArguments(st);
    for i := 0 to |ids|
      invariant arguments == FixedArguments(st) + ids[..i]
    {
      arguments := arguments + [ids[i]];
    }
    assert ids[..|ids|] == ids;
    NumbersBind(st, ids);
  }

  /** What the numbers of a list bind when the ids follow the fixed arguments. */
  lemma NumbersBind(st: Statement, ids: seq<string>)
    ensures var numbers, arguments := NumbersFrom(ListStart(st), |ids|), FixedArguments(st) + ids;
            && (forall i :: 0 <= i < |ids| ==> Binds(arguments, numbers[i], ids[i]))
            && (forall n :: n in numbers || n in FixedNumbers(st) <==> 1 <= n <= |arguments|)
            && (forall n :: n in numbers ==> n !in FixedNumbers(st))
    ensures forall i :: 0 <= i < |FixedArguments(st)| ==>
              i + 1 in FixedNumbers(st) && Binds(FixedArguments(st) + ids, i + 1, FixedArguments(st)[i])
  {
    ListedNumbers(ListStart(st), |ids|);
    assert ListStart(st) == |FixedArguments(st)| + 1;
    assert forall n :: n in FixedNumbers(st) <==> 1 <= n <= |FixedArguments(st)|;
  }

  lemma ListedNumbers(start: int, count: nat)
    ensures forall n :: n in NumbersFrom(start, count) <==> start <= n < start + count
  {
    forall n: int | start <= n < start + count
      ensures n in NumbersFrom(start, count)
    {
      assert NumbersFrom(start, count)[n - start] == n;
    }
  }

  /** The ids an `IN` list selects are the ids given, whatever they are. */
  lemma InListSelectsTheIds(st: Statement, ids: seq<string>)
    ensures var arguments := FixedArguments(st) + ids;
            forall v :: v in ids <==> exists n :: n in NumbersFrom(ListStart(st), |ids|) && Binds(arguments, n, v)
  {
    var arguments, numbers := FixedArguments(st) + ids, NumbersFrom(ListStart(st), |ids|);
    forall v
      ensures v in ids <==> exists n :: n in numbers && Binds(arguments, n, v)
    {
      if v in ids {
        var i :| 0 <= i < |ids| && ids[i] == v;
        assert numbers[i] in numbers && Binds(arguments, numbers[i], v);
      }
    }
  }
}
