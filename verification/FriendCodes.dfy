/** Friend codes: printing, splitting, issuing under contention, and looking up. */
module FriendCodes {
  import opened Common

  // ----- Suffixes -----

  type Byte = x: int | 0 <= x < 256

  const DIGITS := "0123456789"
  const LOWER := "abcdefghijklmnopqrstuvwxyz"
  const UPPER := "ABCDEFGHIJKLMNOPQRSTUVWXYZ"
  const ALPHABET: string := DIGITS + LOWER + UPPER

  const SUFFIX_LENGTH: nat := 4

  predicate Over(alphabet: string, s: string) {
    forall i :: 0 <= i < |s| ==> s[i] in alphabet
  }

  predicate IsSuffix(s: string) {
    |s| == SUFFIX_LENGTH && Over(ALPHABET, s)
  }

  /** A byte, reduced by the size of the alphabet, picks a character. */
  function CharacterFor(alphabet: string, b: Byte): (c: char)
    requires alphabet != []
    ensures c in alphabet
  {
    alphabet[b % |alphabet|]
  }

  function Drawn(alphabet: string, bytes: seq<Byte>): (s: string)
    requires alphabet != []
    ensures |s| == |bytes| && Over(alphabet, s)
  {
    seq(|bytes|, i requires 0 <= i < |bytes| => CharacterFor(alphabet, bytes[i]))
  }

  function SuffixFrom(bytes: seq<Byte>): (s: string)
    ensures |bytes| == SUFFIX_LENGTH ==> IsSuffix(s)
  {
    Drawn(ALPHABET, bytes)
  }

  lemma DrawnStep(alphabet: string, bytes: seq<Byte>, b: Byte)
    requires alphabet != []
    ensures Drawn(alphabet, bytes + [b]) == Drawn(alphabet, bytes) + [CharacterFor(alphabet, b)]
  {
  }

  method GenerateFriendCodeSuffix(random: seq<Byte>) returns (suffix: string)
    requires |random| == SUFFIX_LENGTH
    ensures suffix == SuffixFrom(random) && IsSuffix(suffix) && '#' !in suffix
    ensures |suffix| == 4 && forall i :: 0 <= i < 4 ==> suffix[i] == ALPHABET[random[i] % |ALPHABET|]
  {
    suffix := [];
    for i := 0 to |random|
      invariant suffix == SuffixFrom(random[..i])
    {
      DrawnStep(ALPHABET, random[..i], random[i]);
      assert random[..i + 1] == random[..i] + [random[i]];
      suffix := suffix + [CharacterFor(ALPHABET, random[i])];
    }
    assert random[..|random|] == random;
    NoHashInSuffix(suffix);
  }

  /** The characters by position: ten digits, then small letters, then capital letters. */
  lemma AlphabetByPosition(k: nat)
    ensures |ALPHABET| == 62
    ensures k < 10 ==> ALPHABET[k] == '0' + k as char
    ensures 10 <= k < 36 ==> ALPHABET[k] == 'a' + (k - 10) as char
    ensures 36 <= k < 62 ==> ALPHABET[k] == 'A' + (k - 36) as char
  {
    DigitByPosition(k);
    LowerByPosition(k);
    UpperByPosition(k);
  }

  lemma DigitByPosition(k: nat)
    ensures |DIGITS| == 10 && (k < 10 ==> DIGITS[k] == '0' + k as char)
  {
  }

  lemma LowerByPosition(k: nat)
    ensures |LOWER| == 26 && (10 <= k < 36 ==> LOWER[k - 10] == 'a' + (k - 10) as char)
  {
  }

  lemma UpperByPosition(k: nat)
    ensures |UPPER| == 26 && (36 <= k < 62 ==> UPPER[k - 36] == 'A' + (k - 36) as char)
  {
  }

  lemma NoHashInSuffix(s: string)
    requires IsSuffix(s)
    ensures '#' !in s && s != []
  {
    assert '#' !in DIGITS;
    assert '#' !in LOWER;
    assert '#' !in UPPER;
  }

  lemma {:induction false} EveryStringCanBeDrawn(alphabet: string, s: string) returns (bytes: seq<Byte>)
    requires 0 < |alphabet| <= 256 && Over(alphabet, s)
    ensures |bytes| == |s| && Drawn(alphabet, bytes) == s
  {
    if s == [] {
      bytes := [];
    } else {
      var front, last := s[..|s| - 1], s[|s| - 1];
      assert s == front + [last];
      var before := EveryStringCanBeDrawn(alphabet, front);
      var b := EveryCharacterCanBeDrawn(alphabet, last);
      DrawnStep(alphabet, before, b);
      bytes := before + [b];
    }
  }

  lemma EveryCharacterCanBeDrawn(alphabet: string, c: char) returns (b: Byte)
    requires |alphabet| <= 256 && c in alphabet
    ensures CharacterFor(alphabet, b) == c
  {
    var i: int :| 0 <= i < |alphabet| && alphabet[i] == c;
    b := i;
    SmallRemainder(b, |alphabet|);
  }

  lemma SmallRemainder(n: nat, m: nat)
    requires n < m
    ensures n % m == n
  {
  }

  /** The generator reaches every four-character string over the alphabet, and nothing else. */
  lemma EverySuffixCanBeGenerated(s: string)
    ensures IsSuffix(s) <==> exists bytes: seq<Byte> :: |bytes| == SUFFIX_LENGTH && SuffixFrom(bytes) == s
  {
    if IsSuffix(s) {
      var bytes := EveryStringCanBeDrawn(ALPHABET, s);
      assert SuffixFrom(bytes) == s;
    }
  }

  // ----- Printing and splitting -----

  function Printed(name: string, suffix: string): string {
    name + "#" + suffix
  }

  /** The position of the last '#', or -1. */
  function LastHash(code: string): (r: int)
    ensures -1 <= r < |code|
    ensures r >= 0 ==> code[r] == '#'
    ensures forall i :: r < i < |code| ==> code[i] != '#'
  {
    if code == [] then -1
    else if code[|code| - 1] == '#' then |code| - 1
    else LastHash(code[..|code| - 1])
  }

  function Split(code: string): Option<(string, string)> {
    var i := LastHash(code);
    if i < 0 || i == |code| - 1 then None else Some((code[..i], code[i + 1..]))
  }

  lemma PrintedSplits(name: string, suffix: string)
    requires suffix != "" && '#' !in suffix
    ensures Split(Printed(name, suffix)) == Some((name, suffix))
  {
    var code := Printed(name, suffix);
    assert code == (name + "#") + suffix;
    var i := LastHash(code);
    assert code[|name|] == '#';
    assert forall k :: |name| < k < |code| ==> code[k] == suffix[k - |name| - 1];
    assert code[..i] == name && code[i + 1..] == suffix;
  }

  /**
   Splitting inverts printing: a code splits into a name and a suffix exactly when it is their
   printed form and the suffix is non-empty without a '#'. The name may hold any characters.
   */
  lemma SplitInvertsPrinting(code: string, name: string, suffix: string)
    ensures Split(code) == Some((name, suffix)) <==>
              code == name + "#" + suffix && suffix != "" && '#' !in suffix
  {
    if suffix != "" && '#' !in suffix {
      PrintedSplits(name, suffix);
    }
    var i := LastHash(code);
    if i >= 0 {
      assert code == code[..i] + "#" + code[i + 1..];
    }
  }

  // ----- The players table -----

  datatype Player = Player(name: string, suffix: Option<string>)

  type Players = map<string, Player>

  predicate Taken(players: Players, suffix: string) {
    exists id :: id in players && players[id].suffix == Some(suffix)
  }

  /** The UNIQUE column; every stored suffix was generated. */
  ghost predicate SuffixesGood(players: Players) {
    && (forall a, b ::
          a in players && b in players && players[a].suffix.Some? && players[a].suffix == players[b].suffix ==> a == b)
    && (forall id :: id in players && players[id].suffix.Some? ==> IsSuffix(players[id].suffix.value))
  }

  /** COALESCE(friend_code_suffix, ''), empty as well without a row. */
  function StoredSuffix(players: Players, id: string): string {
    if id in players && players[id].suffix.Some? then players[id].suffix.value else ""
  }

  function StoredName(players: Players, id: string): string {
    if id in players then players[id].name else ""
  }

  datatype Assigned = Affected(rows: nat) | UniqueViolation

  /** UPDATE ... SET friend_code_suffix WHERE id AND friend_code_suffix IS NULL. */
  function AssignSuffix(players: Players, id: string, suffix: string): (Players, Assigned) {
    if id !in players || players[id].suffix.Some? then (players, Affected(0))
    else if Taken(players, suffix) then (players, UniqueViolation)
    else (players[id := players[id].(suffix := Some(suffix))], Affected(1))
  }

  lemma AssignKeepsGood(players: Players, id: string, suffix: string)
    requires SuffixesGood(players) && IsSuffix(suffix)
    ensures SuffixesGood(AssignSuffix(players, id, suffix).0)
  {
  }

  /** The player's row prints to the code. */
  ghost predicate Holds(players: Players, id: string, code: string) {
    && id in players && players[id].suffix.Some?
    && code == Printed(players[id].name, players[id].suffix.value)
  }

  function Matches(players: Players, name: string, suffix: string): set<string> {
    set id | id in players && players[id].name == name && players[id].suffix == Some(suffix)
  }

  /** The ids one of which a lookup returns, if there are any. */
  function Lookup(players: Players, code: string): set<string> {
    var parts := Split(code);
    if parts.None? then {} else Matches(players, parts.value.0, parts.value.1)
  }

  /** For every string, a lookup finds exactly the player whose row prints to it: at most one. */
  lemma LookupIsExact(players: Players, id: string, code: string)
    requires SuffixesGood(players)
    ensures id in Lookup(players, code) <==> Holds(players, id, code)
    ensures Holds(players, id, code) ==> Lookup(players, code) == {id}
  {
    if Holds(players, id, code) {
      var player := players[id];
      NoHashInSuffix(player.suffix.value);
      SplitInvertsPrinting(code, player.name, player.suffix.value);
    }
    var parts := Split(code);
    if parts.Some? {
      SplitInvertsPrinting(code, parts.value.0, parts.value.1);
    }
  }

  // ----- The procedures, each run on its own -----

  const MAX_TRIES: nat := 10

  /** The draws of one call: four random bytes for every try. */
  predicate AreDraws(draws: seq<seq<Byte>>) {
    |draws| == 10 && forall i :: 0 <= i < |draws| ==> |draws[i]| == SUFFIX_LENGTH
  }

  /** Try `k` is the first whose suffix nobody has. */
  ghost predicate FirstFree(players: Players, draws: seq<seq<Byte>>, k: nat) {
    && k < |draws| && !Taken(players, SuffixFrom(draws[k]))
    && forall j :: 0 <= j < k ==> Taken(players, SuffixFrom(draws[j]))
  }

  class PlayersTable {
    var players: Players

    ghost predicate Valid()
      reads this
    {
      SuffixesGood(players)
    }

    constructor ()
      ensures Valid() && players == map[]
    {
      players := map[];
    }

    /** A player keeps an old suffix, or gets the first free draw; it fails only for want of either. */
    method EnsureFriendCode(id: string, draws: seq<seq<Byte>>) returns (code: Option<string>)
      requires Valid() && AreDraws(draws)
      modifies this
      ensures Valid()
      ensures code.Some? ==> Holds(players, id, code.value)
      ensures id !in old(players) || old(players)[id].suffix.Some? ==> players == old(players)
      ensures id in old(players) && old(players)[id].suffix.None? ==>
                forall k: nat :: FirstFree(old(players), draws, k) ==>
                  players == old(players)[id := Player(old(players)[id].name, Some(SuffixFrom(draws[k])))]
      ensures code.None? ==> players == old(players)
      ensures code.None? <==>
                (id !in old(players)
                || (old(players)[id].suffix.None? && !exists k: nat :: FirstFree(old(players), draws, k)))
    {
      var name, suffix := StoredName(players, id), StoredSuffix(players, id);
      if suffix != "" {
        return Some(Printed(name, suffix));
      }
      for i := 0 to MAX_TRIES
        invariant Valid() && players == old(players) && suffix == ""
        invariant id in players ==> players[id].suffix.None? && name == players[id].name
        invariant id in players ==> forall j :: 0 <= j < i ==> Taken(players, SuffixFrom(draws[j]))
      {
        var candidate := GenerateFriendCodeSuffix(draws[i]);
        AssignKeepsGood(players, id, candidate);
        var (table, result) := AssignSuffix(players, id, candidate);
        players := table;
        if result.UniqueViolation? {
          continue;
        }
        if result.rows == 1 {
          assert FirstFree(old(players), draws, i);
          return Some(Printed(name, candidate));
        }
        suffix := StoredSuffix(players, id);
        if suffix != "" {
          return Some(Printed(name, suffix));
        }
      }
      code := None;
    }

    method LookupPlayerByFriendCode(code: string) returns (id: Option<string>)
      requires Valid()
      ensures id.Some? ==> Holds(players, id.value, code)
      ensures id.None? ==> forall other :: !Holds(players, other, code)
    {
      forall other {
        LookupIsExact(players, other, code);
      }
      var found := Lookup(players, code);
      if found == {} {
        return None;
      }
      var x :| x in found;
      id := Some(x);
    }
  }

  // ----- Any number of calls, interleaved statement by statement -----

  datatype Phase =
    | Reading
    | Updating(name: string, tries: nat)
    | Rereading(name: string, tries: nat)
    | Done(code: Option<string>)

  datatype Call = Call(player: string, phase: Phase)

  datatype World = World(players: Players, calls: map<nat, Call>)

  /** What may befall an UPDATE: it is answered, it is lost, or only its answer is lost. */
  datatype Fault = Fine | NoEffect | Unacknowledged

  /** A re-read is answered, its query fails, or its row cannot be read, which the code ignores. */
  datatype Reply = Answered | QueryFailed | ScanFailed

  datatype Action =
    | CreatePlayer(id: string, name: string)
    | Begin(call: nat, player: string)
    | Read(call: nat, answered: bool)
    | Update(call: nat, draw: seq<Byte>, fault: Fault)
    | Reread(call: nat, reply: Reply)

  /** New player ids are new; calls take their statements in order. */
  predicate Enabled(w: World, a: Action) {
    match a
    case CreatePlayer(id, _) => id !in w.players && forall c :: c in w.calls ==> w.calls[c].player != id
    case Begin(call, _) => call !in w.calls
    case Read(call, _) => call in w.calls && w.calls[call].phase.Reading?
    case Update(call, draw, _) => call in w.calls && w.calls[call].phase.Updating? && |draw| == SUFFIX_LENGTH
    case Reread(call, _) => call in w.calls && w.calls[call].phase.Rereading?
  }

  function NextTry(name: string, tries: nat): Phase {
    if tries + 1 < MAX_TRIES then Updating(name, tries + 1) else Done(None)
  }

  /** What a call does with the answer to its UPDATE. */
  function AfterUpdate(phase: Phase, candidate: string, result: Assigned, fault: Fault): Phase
    requires phase.Updating?
  {
    if fault != Fine || result.UniqueViolation? then NextTry(phase.name, phase.tries)
    else if result.rows == 1 then Done(Some(Printed(phase.name, candidate)))
    else Rereading(phase.name, phase.tries)
  }

  function Step(w: World, a: Action): World
    requires Enabled(w, a)
  {
    match a
    case CreatePlayer(id, name) => w.(players := w.players[id := Player(name, None)])
    case Begin(call, player) => w.(calls := w.calls[call := Call(player, Reading)])
    case Read(call, answered) =>
      var player := w.calls[call].player;
      var name, suffix := StoredName(w.players, player), StoredSuffix(w.players, player);
      var phase :=
        if !answered then Done(None)
        else if suffix != "" then Done(Some(Printed(name, suffix)))
        else Updating(name, 0);
      w.(calls := w.calls[call := Call(player, phase)])
    case Update(call, draw, fault) =>
      var player, candidate := w.calls[call].player, SuffixFrom(draw);
      var (players, result) := AssignSuffix(w.players, player, candidate);
      World(if fault == NoEffect then w.players else players,
            w.calls[call := Call(player, AfterUpdate(w.calls[call].phase, candidate, result, fault))])
    case Reread(call, reply) =>
      var Call(player, phase) := w.calls[call];
      var suffix := if reply.Answered? then StoredSuffix(w.players, player) else "";
      var phase' :=
        if reply.QueryFailed? then Done(None)
        else if suffix != "" then Done(Some(Printed(phase.name, suffix)))
        else NextTry(phase.name, phase.tries);
      w.(calls := w.calls[call := Call(player, phase')])
  }

  ghost predicate Legal(w: World, run: seq<Action>)
    decreases |run|
  {
    run != [] ==> Enabled(w, run[0]) && Legal(Step(w, run[0]), run[1..])
  }

  ghost function After(w: World, run: seq<Action>): World
    requires Legal(w, run)
    decreases |run|
  {
    if run == [] then w else After(Step(w, run[0]), run[1..])
  }

  const INITIAL := World(map[], map[])

  /** A call under way has read the player's name; a code it returned is the one its row prints. */
  ghost predicate CallGood(players: Players, call: Call) {
    match call.phase
    case Reading => true
    case Updating(name, _) => name == StoredName(players, call.player)
    case Rereading(name, _) => name == StoredName(players, call.player)
    case Done(code) => code.Some? ==> Holds(players, call.player, code.value)
  }

  ghost predicate CallsGood(players: Players, calls: map<nat, Call>) {
    forall c :: c in calls ==> CallGood(players, calls[c])
  }

  ghost predicate Inv(w: World) {
    SuffixesGood(w.players) && CallsGood(w.players, w.calls)
  }

  /** Names never change and a stored suffix never changes. */
  ghost predicate RowsOnlyGain(before: Players, after: Players) {
    forall id :: id in before ==>
      id in after && after[id].name == before[id].name && (before[id].suffix.Some? ==> after[id] == before[id])
  }

  lemma StepOnlyGains(w: World, a: Action)
    requires Enabled(w, a)
    ensures RowsOnlyGain(w.players, Step(w, a).players)
    ensures forall c :: c in w.calls && w.calls[c].phase.Done? ==>
              c in Step(w, a).calls && Step(w, a).calls[c] == w.calls[c]
  {
  }

  /** A call stays good when rows only gain and its player is not newly created. */
  lemma CallStaysGood(before: Players, after: Players, call: Call)
    requires RowsOnlyGain(before, after) && CallGood(before, call)
    requires call.player in after ==> call.player in before
    ensures CallGood(after, call)
  {
  }

  lemma CallsStayGood(before: Players, after: Players, calls: map<nat, Call>)
    requires RowsOnlyGain(before, after) && CallsGood(before, calls)
    requires forall c :: c in calls && calls[c].player in after ==> calls[c].player in before
    ensures CallsGood(after, calls)
  {
    forall c | c in calls
      ensures CallGood(after, calls[c])
    {
      CallStaysGood(before, after, calls[c]);
    }
  }

  lemma StepKeepsInv(w: World, a: Action)
    requires Inv(w) && Enabled(w, a)
    ensures Inv(Step(w, a))
  {
    var w' := Step(w, a);
    StepOnlyGains(w, a);
    CallsStayGood(w.players, w'.players, w.calls);
    if a.Update? {
      AssignKeepsGood(w.players, w.calls[a.call].player, SuffixFrom(a.draw));
    }
    if !a.CreatePlayer? {
      assert CallGood(w'.players, w'.calls[a.call]);
    }
  }

  lemma {:induction false} RunKeepsInv(w: World, run: seq<Action>)
    requires Inv(w) && Legal(w, run)
    ensures Inv(After(w, run))
    decreases |run|
  {
    if run != [] {
      StepKeepsInv(w, run[0]);
      RunKeepsInv(Step(w, run[0]), run[1..]);
    }
  }

  lemma {:induction false} RunOnlyGains(w: World, run: seq<Action>)
    requires Legal(w, run)
    ensures RowsOnlyGain(w.players, After(w, run).players)
    ensures forall c :: c in w.calls && w.calls[c].phase.Done? ==>
              c in After(w, run).calls && After(w, run).calls[c] == w.calls[c]
    decreases |run|
  {
    if run != [] {
      StepOnlyGains(w, run[0]);
      RunOnlyGains(Step(w, run[0]), run[1..]);
    }
  }

  /** The call returned this code to this player. */
  predicate Issued(w: World, call: nat, player: string, code: string) {
    call in w.calls && w.calls[call] == Call(player, Done(Some(code)))
  }

  /**
   Whatever calls run side by side and whatever statements fail, a code once issued never changes:
   at every later moment the player's row prints to it and it looks up to that player alone.
   */
  lemma IssuedCodesArePermanent(run: seq<Action>, later: seq<Action>, call: nat, player: string, code: string)
    requires Legal(INITIAL, run) && Legal(After(INITIAL, run), later)
    requires Issued(After(INITIAL, run), call, player, code)
    ensures var w := After(After(INITIAL, run), later);
            Issued(w, call, player, code) && Holds(w.players, player, code) && Lookup(w.players, code) == {player}
  {
    var w := After(INITIAL, run);
    RunKeepsInv(INITIAL, run);
    RunKeepsInv(w, later);
    RunOnlyGains(w, later);
    LookupIsExact(After(w, later).players, player, code);
  }

  /** Two calls return the same code exactly when they served the same player. */
  lemma CodesIdentifyPlayers(run: seq<Action>, call: nat, call': nat, p: string, p': string,
                             code: string, code': string)
    requires Legal(INITIAL, run)
    requires Issued(After(INITIAL, run), call, p, code) && Issued(After(INITIAL, run), call', p', code')
    ensures p == p' <==> code == code'
  {
    RunKeepsInv(INITIAL, run);
    var players := After(INITIAL, run).players;
    LookupIsExact(players, p, code);
    LookupIsExact(players, p', code');
  }

  // ----- How a call ends -----

  /** An UPDATE that finds its suffix free stores it and ends the call with the code. */
  lemma FreeSuffixIsIssued(w: World, call: nat, draw: seq<Byte>)
    requires Enabled(w, Update(call, draw, Fine))
    requires var player := w.calls[call].player;
             && player in w.players && w.players[player].suffix.None?
             && forall id :: id in w.players ==> w.players[id].suffix != Some(SuffixFrom(draw))
    ensures var later, player := Step(w, Update(call, draw, Fine)), w.calls[call].player;
            && later.players == w.players[player := Player(w.players[player].name, Some(SuffixFrom(draw)))]
            && later.calls ==
               w.calls[call := Call(player, Done(Some(w.calls[call].phase.name + "#" + SuffixFrom(draw))))]
  {
  }

  predicate Answers(a: Action) {
    match a
    case Read(_, answered) => answered
    case Reread(_, reply) => reply != QueryFailed
    case _ => true
  }

  function UpdatesOf(run: seq<Action>, call: nat): nat {
    if run == [] then 0 else UpdatesOf(run[1..], call) + if run[0].Update? && run[0].call == call then 1 else 0
  }

  /** The UPDATEs a call in this phase has made; a call that gave up made ten. */
  predicate TriedTimes(phase: Phase, n: nat) {
    match phase
    case Reading => n == 0
    case Updating(_, tries) => n == tries < 10
    case Rereading(_, tries) => n == tries + 1 <= 10
    case Done(code) => code.None? ==> n == 10
  }

  lemma StepCountsTries(w: World, a: Action, call: nat, n: nat)
    requires Enabled(w, a) && Answers(a) && call in w.calls && TriedTimes(w.calls[call].phase, n)
    ensures var later := Step(w, a);
            && call in later.calls
            && TriedTimes(later.calls[call].phase, if a.Update? && a.call == call then n + 1 else n)
  {
  }

  lemma {:induction false} RunCountsTries(w: World, run: seq<Action>, call: nat, n: nat)
    requires Legal(w, run) && call in w.calls && TriedTimes(w.calls[call].phase, n)
    requires forall a :: a in run ==> Answers(a)
    ensures call in After(w, run).calls && TriedTimes(After(w, run).calls[call].phase, n + UpdatesOf(run, call))
    decreases |run|
  {
    if run != [] {
      assert Answers(run[0]);
      StepCountsTries(w, run[0], call, n);
      var m := if run[0].Update? && run[0].call == call then n + 1 else n;
      RunCountsTries(Step(w, run[0]), run[1..], call, m);
    }
  }

  /** While its queries are answered, a call gives up only after ten UPDATEs. */
  lemma GivesUpAfterTenTries(w: World, run: seq<Action>, call: nat)
    requires Legal(w, run) && call in w.calls && w.calls[call].phase.Reading?
    requires forall a :: a in run ==> Answers(a)
    ensures call in After(w, run).calls
    ensures After(w, run).calls[call].phase == Done(None) ==> UpdatesOf(run, call) == 10
  {
    RunCountsTries(w, run, call, 0);
  }

  // ----- Names -----

  /** No two players share an account name. */
  ghost predicate NamesDistinct(players: Players) {
    forall a, b :: a in players && b in players && players[a].name == players[b].name ==> a == b
  }

  predicate NameInUse(players: Players, name: string) {
    exists id :: id in players && players[id].name == name
  }

  /** Every account of the run was created under a name not in use at that moment. */
  ghost predicate FreshNames(w: World, run: seq<Action>)
    requires Legal(w, run)
    decreases |run|
  {
    run != [] ==>
      && (run[0].CreatePlayer? ==> !NameInUse(w.players, run[0].name))
      && FreshNames(Step(w, run[0]), run[1..])
  }

  lemma StepKeepsNames(w: World, a: Action)
    requires Enabled(w, a) && NamesDistinct(w.players)
    ensures NamesDistinct(Step(w, a).players) <==> (a.CreatePlayer? ==> !NameInUse(w.players, a.name))
  {
    if a.CreatePlayer? {
      if id :| id in w.players && w.players[id].name == a.name {
        assert id in Step(w, a).players && a.id in Step(w, a).players;
      }
    }
  }

  /** A shared name stays shared. */
  lemma SharedNamesStay(before: Players, after: Players)
    requires RowsOnlyGain(before, after) && NamesDistinct(after)
    ensures NamesDistinct(before)
  {
  }

  /** The table lets names repeat: they are distinct exactly when no account was created under a name in use. */
  lemma {:induction false} NamesDistinctExactlyWhenFresh(w: World, run: seq<Action>)
    requires Legal(w, run) && NamesDistinct(w.players)
    ensures NamesDistinct(After(w, run).players) <==> FreshNames(w, run)
    decreases |run|
  {
    if run != [] {
      var next := Step(w, run[0]);
      StepKeepsNames(w, run[0]);
      if NamesDistinct(next.players) {
        NamesDistinctExactlyWhenFresh(next, run[1..]);
      } else {
        RunOnlyGains(next, run[1..]);
        if NamesDistinct(After(next, run[1..]).players) {
          SharedNamesStay(next.players, After(next, run[1..]).players);
        }
      }
    }
  }

  lemma StepThenRun(w: World, a: Action, run: seq<Action>)
    requires Enabled(w, a) && Legal(Step(w, a), run)
    ensures Legal(w, [a] + run) && After(w, [a] + run) == After(Step(w, a), run)
  {
    assert ([a] + run)[1..] == run;
  }

  /** Two accounts under one name: both creations succeed. */
  lemma NamesCanRepeat() returns (run: seq<Action>)
    ensures Legal(INITIAL, run) && !NamesDistinct(After(INITIAL, run).players)
  {
    var first, second := CreatePlayer("a", "n"), CreatePlayer("b", "n");
    var named := Step(INITIAL, first);
    StepThenRun(named, second, []);
    StepThenRun(INITIAL, first, [second]);
    run := [first] + [second];
    var players := Step(named, second).players;
    assert players["a"].name == players["b"].name;
  }
}
