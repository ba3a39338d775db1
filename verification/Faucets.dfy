// The request that students send to the faucet server, as text in the file request.txt
// (test/pipe.c, test/student_1.c, test/fileutils.h).
module FaucetRequests {
  predicate IsDigit(c: char) {
    '0' <= c <= '9'
  }

  predicate IsBlank(c: char) {
    c == ' ' || c == '\n'
  }

  predicate AllDigits(text: string) {
    forall i :: 0 <= i < |text| ==> IsDigit(text[i])
  }

  // ReadInt for numbers without a sign: blanks are skipped, the number ends at the next blank or at
  // the end of the file, and anything that is no digit makes it zero.
  function SkipBlanks(text: string): string {
    if text != [] && IsBlank(text[0]) then SkipBlanks(text[1..]) else text
  }

  function Token(text: string): string {
    if text == [] || IsBlank(text[0]) then [] else [text[0]] + Token(text[1..])
  }

  lemma TokenIsPrefix(text: string)
    ensures Token(text) <= text
  {
    if text != [] && !IsBlank(text[0]) {
      TokenIsPrefix(text[1..]);
    }
  }

  function Decimal(digits: string): nat
    requires AllDigits(digits)
  {
    if digits == [] then 0 else 10 * Decimal(digits[..|digits| - 1]) + (digits[|digits| - 1] - '0') as nat
  }

  function Number(token: string): nat {
    if AllDigits(token) then Decimal(token) else 0
  }

  function ReadRequest(text: string): (nat, nat) {
    var first := Token(SkipBlanks(text));
    TokenIsPrefix(SkipBlanks(text));
    var rest := SkipBlanks(text)[|first|..];
    (Number(first), Number(Token(SkipBlanks(rest))))
  }

  // Writing at the start of a file that is opened without being truncated.
  function Overwrite(was: string, text: string): string {
    text + if |text| < |was| then was[|text|..] else []
  }

  function TakeRequest(amount: string): string {
    "0 " + amount
  }

  function ReturnRequest(faucet: nat): string
    requires faucet < 10
  {
    "1 " + [('0' as int + faucet) as char]
  }

  lemma {:induction false} TokenOfDigits(digits: string)
    requires AllDigits(digits)
    ensures Token(digits) == digits
  {
    if digits != [] {
      TokenOfDigits(digits[1..]);
      assert digits == [digits[0]] + digits[1..];
    }
  }

  lemma ReadsTwoNumbers(c: char, digits: string)
    requires IsDigit(c) && AllDigits(digits) && digits != []
    ensures ReadRequest([c, ' '] + digits) == ((c - '0') as nat, Decimal(digits))
  {
    var text := [c, ' '] + digits;
    assert Token(text[1..]) == [];
    assert Token(text) == [c];
    var rest := text[1..];
    assert rest[1..] == digits;
    assert SkipBlanks(digits) == digits;
    assert SkipBlanks(rest) == digits;
    TokenOfDigits(digits);
    assert Decimal([c]) == (c - '0') as nat;
  }

  lemma {:induction false} DecimalSplit(c: char, digits: string)
    requires IsDigit(c) && AllDigits(digits)
    ensures Decimal([c] + digits) == 0 <==> c == '0' && forall i :: 0 <= i < |digits| ==> digits[i] == '0'
    ensures digits != [] ==> Decimal([c] + digits) >= 10 * (c - '0') as nat
  {
    if digits != [] {
      var n := |digits| - 1;
      DecimalSplit(c, digits[..n]);
      assert ([c] + digits)[..|digits|] == [c] + digits[..n];
      if n == 0 {
        assert Decimal([c] + digits[..n]) == (c - '0') as nat;
      }
    }
  }

  // A return request is written over the last take request. The server reads the right faucet exactly if
  // nothing is left over, or only zeros are left over behind faucet 0.
  lemma ReturnReadExact(amount: string, faucet: nat)
    requires amount != [] && AllDigits(amount) && faucet < 10
    ensures ReadRequest(Overwrite(TakeRequest(amount), ReturnRequest(faucet))).0 == 1
    ensures ReadRequest(Overwrite(TakeRequest(amount), ReturnRequest(faucet))).1 == faucet
       <==> |amount| == 1 || (faucet == 0 && forall i :: 1 <= i < |amount| ==> amount[i] == '0')
  {
    var f := ('0' as int + faucet) as char;
    var left := amount[1..];
    assert Overwrite(TakeRequest(amount), ReturnRequest(faucet)) == ['1', ' '] + ([f] + left);
    ReadsTwoNumbers('1', [f] + left);
    DecimalSplit(f, left);
    assert forall i :: 1 <= i < |amount| ==> amount[i] == left[i - 1];
    if left == [] {
      assert [f] + left == [f] && Decimal([f]) == faucet;
    } else if faucet > 0 {
      assert Decimal([f] + left) >= 10 * faucet > faucet;
    } else if forall i :: 0 <= i < |left| ==> left[i] == '0' {
      assert Decimal([f] + left) == 0;
    }
  }
}

// The protocol between any number of students and the faucet server, over every interleaving.
module Faucets {
  import opened Collections
  import opened FaucetRequests

  // Where a student is; each step does one system call.
  datatype Pc =
    | Arriving    // Wait("faucet")
    | Queueing    // Wait("pipe_mutex")
    | Entered     // write the take request
    | Written     // Signal("request_water")
    | Asked       // Wait("open_water")
    | Granted     // read faucet.txt
    | Served      // Signal("pipe_mutex")
    | Drinking    // Wait("pipe_mutex")
    | Reentered   // write the return request
    | Rewritten   // Signal("request_water")
    | Returning   // Wait("open_water")
    | Returned    // Signal("pipe_mutex")
    | Gone

  datatype Server =
    | Idle                // Wait("request_water")
    | Woken               // read request.txt
    | Taking              // look for a free faucet
    | Marked(which: nat)  // write faucet.txt
    | Wrote(which: nat)   // Signal("open_water")
    | Freeing(value: nat) // mark the faucet as free
    | Cleared             // Signal("faucet")
    | Released            // Signal("open_water")
    | Astray              // has written outside the array of faucets

  // inside, owner and admitted record history: no step looks at them.
  datatype State = State(
    pc: seq<Pc>, faucetId: seq<int>, server: Server, busy: seq<bool>,
    openWater: nat, faucet: nat, requestWater: nat, pipeMutex: nat,
    request: string, faucetTxt: int,
    inside: Option<nat>, owner: seq<Option<nat>>, admitted: set<nat>)

  datatype Action = Student(t: nat) | Serve

  function Start(n: nat): State {
    State(seq(n, i => Arriving), seq(n, i => 0), Idle, [false, false], 0, 2, 0, 1, "", 0, None, [None, None], {})
  }

  ghost predicate Shape(s: State, n: nat) {
    |s.pc| == |s.faucetId| == n && |s.busy| == |s.owner| == 2
  }

  function ReturnText(k: int): string {
    if 0 <= k < 10 then ReturnRequest(k) else "1 "
  }

  function StudentStep(s: State, t: nat, amounts: seq<string>): State
    requires t < |s.pc| == |s.faucetId| == |amounts|
  {
    match s.pc[t]
    case Arriving => if s.faucet == 0 then s else s.(pc := s.pc[t := Queueing], faucet := s.faucet - 1, admitted := s.admitted + {t})
    case Queueing => if s.pipeMutex == 0 then s else s.(pc := s.pc[t := Entered], pipeMutex := s.pipeMutex - 1, inside := Some(t))
    case Entered => s.(pc := s.pc[t := Written], request := TakeRequest(amounts[t]))
    case Written => s.(pc := s.pc[t := Asked], requestWater := s.requestWater + 1)
    case Asked => if s.openWater == 0 then s else s.(pc := s.pc[t := Granted], openWater := s.openWater - 1)
    case Granted => s.(pc := s.pc[t := Served], faucetId := s.faucetId[t := s.faucetTxt])
    case Served => s.(pc := s.pc[t := Drinking], pipeMutex := s.pipeMutex + 1, inside := None)
    case Drinking => if s.pipeMutex == 0 then s else s.(pc := s.pc[t := Reentered], pipeMutex := s.pipeMutex - 1, inside := Some(t))
    case Reentered => s.(pc := s.pc[t := Rewritten], request := Overwrite(s.request, ReturnText(s.faucetId[t] - 1)))
    case Rewritten => s.(pc := s.pc[t := Returning], requestWater := s.requestWater + 1)
    case Returning => if s.openWater == 0 then s else s.(pc := s.pc[t := Returned], openWater := s.openWater - 1)
    case Returned => s.(pc := s.pc[t := Gone], pipeMutex := s.pipeMutex + 1, inside := None)
    case Gone => s
  }

  function ServerStep(s: State): State
    requires |s.busy| == |s.owner| == 2
  {
    match s.server
    case Idle => if s.requestWater == 0 then s else s.(server := Woken, requestWater := s.requestWater - 1)
    case Woken => var (kind, value) := ReadRequest(s.request); s.(server := if kind == 0 then Taking else Freeing(value))
    case Taking =>
      if !s.busy[0] then s.(server := Marked(0), busy := s.busy[0 := true], owner := s.owner[0 := s.inside])
      else if !s.busy[1] then s.(server := Marked(1), busy := s.busy[1 := true], owner := s.owner[1 := s.inside])
      else s.(server := Idle)
    case Marked(i) => s.(server := Wrote(i), faucetTxt := i + 1)
    case Wrote(i) => s.(server := Idle, openWater := s.openWater + 1)
    case Freeing(v) =>
      if v < 2 then s.(server := Cleared, busy := s.busy[v := false], owner := s.owner[v := None]) else s.(server := Astray)
    case Cleared => s.(server := Released, faucet := s.faucet + 1, admitted := if s.inside.Some? then s.admitted - {s.inside.value} else s.admitted)
    case Released => s.(server := Idle, openWater := s.openWater + 1)
    case Astray => s
  }

  function Next(s: State, a: Action, amounts: seq<string>): State {
    match a
    case Student(t) => if t < |s.pc| == |s.faucetId| == |amounts| then StudentStep(s, t, amounts) else s
    case Serve => if |s.busy| == |s.owner| == 2 then ServerStep(s) else s
  }

  function Run(s: State, acts: seq<Action>, amounts: seq<string>): State {
    if acts == [] then s else Next(Run(s, acts[..|acts| - 1], amounts), acts[|acts| - 1], amounts)
  }

  // ---------------------------------------------------------------------
  // What every step keeps

  predicate InPipe(p: Pc) {
    p in {Entered, Written, Asked, Granted, Served, Reentered, Rewritten, Returning, Returned}
  }

  ghost predicate Mutex(s: State) {
    && s.pipeMutex == (if s.inside.Some? then 0 else 1)
    && (s.inside.Some? ==> s.inside.value < |s.pc|)
    && forall t :: 0 <= t < |s.pc| ==> (InPipe(s.pc[t]) <==> s.inside == Some(t))
  }

  predicate Quiet(s: State) {
    s.server == Idle && s.requestWater == 0 && s.openWater == 0
  }

  // At most one request is under way, and it is in one place.
  ghost predicate Handshake(s: State)
    requires s.inside.Some? ==> s.inside.value < |s.pc|
  {
    if s.inside.None? then Quiet(s)
    else
      var p := s.pc[s.inside.value];
      if p == Asked then
        || (s.server == Idle && s.requestWater + s.openWater == 1)
        || (s.requestWater == s.openWater == 0 && (s.server in {Woken, Taking} || ((s.server.Marked? || s.server.Wrote?) && s.server.which < 2)))
      else if p == Returning then
        || (s.server == Idle && s.requestWater + s.openWater == 1)
        || (s.requestWater == s.openWater == 0 && (s.server in {Woken, Cleared, Released} || s.server.Freeing?))
      else Quiet(s)
  }

  predicate Unread(s: State) {
    s.requestWater == 1 || s.server == Woken
  }

  ghost predicate Messages(s: State)
    requires s.inside.Some? ==> s.inside.value < |s.pc| == |s.faucetId|
  {
    && |s.request| <= 3
    && (s.inside.Some? ==>
          var t := s.inside.value;
          && (s.pc[t] == Written || (s.pc[t] == Asked && Unread(s)) ==> ReadRequest(s.request).0 == 0)
          && (s.pc[t] == Rewritten || (s.pc[t] == Returning && Unread(s)) ==> ReadRequest(s.request) == (1, s.faucetId[t] - 1))
          && (s.server.Freeing? ==> s.server.value == s.faucetId[t] - 1))
  }

  // Which students have a faucet, and which one.
  predicate Has(s: State, t: nat)
    requires t < |s.pc|
  {
    match s.pc[t]
    case Granted | Served | Drinking | Reentered | Rewritten => true
    case Asked => s.server.Marked? || s.server.Wrote? || s.openWater == 1
    case Returning => Unread(s) || s.server.Freeing?
    case _ => false
  }

  function Which(s: State, t: nat): int
    requires t < |s.pc| == |s.faucetId|
  {
    if s.pc[t] == Asked && s.server.Marked? then s.server.which
    else if s.pc[t] in {Asked, Granted} then s.faucetTxt - 1
    else s.faucetId[t] - 1
  }

  ghost predicate Ownership(s: State)
    requires |s.pc| == |s.faucetId| && |s.busy| == |s.owner| == 2
  {
    && (forall i :: 0 <= i < 2 ==> (s.busy[i] <==> s.owner[i].Some?))
    && (forall i :: 0 <= i < 2 && s.owner[i].Some? ==> var t := s.owner[i].value; t < |s.pc| && Has(s, t) && Which(s, t) == i)
    && (forall t :: 0 <= t < |s.pc| && Has(s, t) ==> var i := Which(s, t); 0 <= i < 2 && s.owner[i] == Some(t))
    && (s.server.Wrote? ==> s.faucetTxt == s.server.which + 1)
  }

  predicate Admitted(s: State, t: nat)
    requires t < |s.pc|
  {
    match s.pc[t]
    case Arriving | Returned | Gone => false
    case Returning => Unread(s) || s.server.Freeing? || s.server == Cleared
    case _ => true
  }

  ghost predicate Admission(s: State) {
    && s.faucet + |s.admitted| == 2
    && (forall t: nat :: t in s.admitted <==> t < |s.pc| && Admitted(s, t))
  }

  ghost predicate Inv(s: State, n: nat) {
    Shape(s, n) && Mutex(s) && Handshake(s) && Messages(s) && Ownership(s) && Admission(s)
  }

  ghost predicate OneDigit(amounts: seq<string>) {
    forall t :: 0 <= t < |amounts| ==> |amounts[t]| == 1 && AllDigits(amounts[t])
  }

  lemma ArriveKeepsInv(s: State, t: nat, amounts: seq<string>)
    requires Inv(s, |amounts|) && OneDigit(amounts) && t < |amounts| && s.pc[t] == Arriving
    ensures Inv(StudentStep(s, t, amounts), |amounts|)
  {
    if s.faucet > 0 {
      ArriveKeepsPipe(s, t, amounts);
      ArriveKeepsOwnership(s, t, amounts);
      ArriveKeepsAdmission(s, t, amounts);
    }
  }

  lemma ArriveKeepsPipe(s: State, t: nat, amounts: seq<string>)
    requires Shape(s, |amounts|) && t < |amounts| && s.pc[t] == Arriving && Mutex(s) && Handshake(s) && Messages(s)
    ensures var s' := StudentStep(s, t, amounts); Shape(s', |amounts|) && Mutex(s') && Handshake(s') && Messages(s')
  {
    assert s.inside != Some(t);
  }

  lemma ArriveKeepsOwnership(s: State, t: nat, amounts: seq<string>)
    requires Shape(s, |amounts|) && t < |amounts| && s.pc[t] == Arriving && Ownership(s)
    ensures Ownership(StudentStep(s, t, amounts))
  {
    var s' := StudentStep(s, t, amounts);
    forall u | 0 <= u < |s.pc|
      ensures Has(s', u) == Has(s, u) && (Has(s, u) ==> Which(s', u) == Which(s, u))
    {
      assert u != t ==> s'.pc[u] == s.pc[u];
    }
  }

  lemma ArriveKeepsAdmission(s: State, t: nat, amounts: seq<string>)
    requires Shape(s, |amounts|) && t < |amounts| && s.pc[t] == Arriving && Admission(s)
    ensures Admission(StudentStep(s, t, amounts))
  {
    if s.faucet > 0 {
      var s' := StudentStep(s, t, amounts);
      assert t !in s.admitted;
      forall u: nat
        ensures u in s'.admitted <==> u < |s'.pc| && Admitted(s', u)
      {
        assert u != t && u < |s.pc| ==> Admitted(s', u) == Admitted(s, u);
      }
    }
  }

  lemma AcquireKeepsInv(s: State, t: nat, amounts: seq<string>)
    requires Inv(s, |amounts|) && OneDigit(amounts) && t < |amounts| && s.pc[t] in {Queueing, Drinking}
    ensures Inv(StudentStep(s, t, amounts), |amounts|)
  {
  }

  lemma TakeTextKeepsInv(s: State, t: nat, amounts: seq<string>)
    requires Inv(s, |amounts|) && OneDigit(amounts) && t < |amounts| && s.pc[t] == Entered
    ensures Inv(StudentStep(s, t, amounts), |amounts|)
  {
    ReadsTwoNumbers('0', amounts[t]);
  }

  lemma ReturnTextKeepsInv(s: State, t: nat, amounts: seq<string>)
    requires Inv(s, |amounts|) && OneDigit(amounts) && t < |amounts| && s.pc[t] == Reentered
    ensures Inv(StudentStep(s, t, amounts), |amounts|)
  {
    assert Has(s, t);
    ReturnReads(s.request, s.faucetId[t] - 1);
    ReturnTextKeepsPipe(s, t, amounts);
    ReturnTextKeepsFaucets(s, t, amounts);
  }

  lemma ReturnTextKeepsPipe(s: State, t: nat, amounts: seq<string>)
    requires Shape(s, |amounts|) && t < |amounts| && s.pc[t] == Reentered && Mutex(s) && Handshake(s) && Messages(s)
    requires var text := Overwrite(s.request, ReturnText(s.faucetId[t] - 1)); |text| == 3 && ReadRequest(text) == (1, s.faucetId[t] - 1)
    ensures var s' := StudentStep(s, t, amounts); Shape(s', |amounts|) && Mutex(s') && Handshake(s') && Messages(s')
  {
    assert s.inside == Some(t);
  }

  lemma ReturnTextKeepsFaucets(s: State, t: nat, amounts: seq<string>)
    requires Shape(s, |amounts|) && t < |amounts| && s.pc[t] == Reentered && Ownership(s) && Admission(s)
    ensures var s' := StudentStep(s, t, amounts); Ownership(s') && Admission(s')
  {
    var s' := StudentStep(s, t, amounts);
    assert forall u :: 0 <= u < |s.pc| ==> Has(s', u) == Has(s, u) && Admitted(s', u) == Admitted(s, u) && (Has(s, u) ==> Which(s', u) == Which(s, u));
  }

  lemma ReturnReads(request: string, k: nat)
    requires |request| <= 3 && k < 2
    ensures var text := Overwrite(request, ReturnText(k)); |text| == 3 && ReadRequest(text) == (1, k)
  {
    var digit := [('0' as int + k) as char];
    ReadsTwoNumbers('1', digit);
    assert Decimal(digit) == k;
    assert Overwrite(request, ReturnText(k)) == ['1', ' '] + digit;
  }

  lemma AskTakeKeepsInv(s: State, t: nat, amounts: seq<string>)
    requires Inv(s, |amounts|) && OneDigit(amounts) && t < |amounts| && s.pc[t] == Written
    ensures Inv(StudentStep(s, t, amounts), |amounts|)
  {
  }

  lemma AskReturnKeepsInv(s: State, t: nat, amounts: seq<string>)
    requires Inv(s, |amounts|) && OneDigit(amounts) && t < |amounts| && s.pc[t] == Rewritten
    ensures Inv(StudentStep(s, t, amounts), |amounts|)
  {
  }

  lemma GrantingKeepsInv(s: State, t: nat, amounts: seq<string>)
    requires Inv(s, |amounts|) && OneDigit(amounts) && t < |amounts| && s.pc[t] == Asked
    ensures Inv(StudentStep(s, t, amounts), |amounts|)
  {
  }

  lemma ReturningKeepsInv(s: State, t: nat, amounts: seq<string>)
    requires Inv(s, |amounts|) && OneDigit(amounts) && t < |amounts| && s.pc[t] == Returning
    ensures Inv(StudentStep(s, t, amounts), |amounts|)
  {
  }

  lemma ReadKeepsInv(s: State, t: nat, amounts: seq<string>)
    requires Inv(s, |amounts|) && OneDigit(amounts) && t < |amounts| && s.pc[t] == Granted
    ensures Inv(StudentStep(s, t, amounts), |amounts|)
  {
  }

  lemma ServingKeepsInv(s: State, t: nat, amounts: seq<string>)
    requires Inv(s, |amounts|) && OneDigit(amounts) && t < |amounts| && s.pc[t] == Served
    ensures Inv(StudentStep(s, t, amounts), |amounts|)
  {
  }

  lemma LeavingKeepsInv(s: State, t: nat, amounts: seq<string>)
    requires Inv(s, |amounts|) && OneDigit(amounts) && t < |amounts| && s.pc[t] == Returned
    ensures Inv(StudentStep(s, t, amounts), |amounts|)
  {
  }

  lemma StudentKeepsInv(s: State, t: nat, amounts: seq<string>)
    requires Inv(s, |amounts|) && OneDigit(amounts) && t < |amounts|
    ensures Inv(StudentStep(s, t, amounts), |amounts|)
  {
    match s.pc[t]
    case Arriving => ArriveKeepsInv(s, t, amounts);
    case Queueing | Drinking => AcquireKeepsInv(s, t, amounts);
    case Entered => TakeTextKeepsInv(s, t, amounts);
    case Reentered => ReturnTextKeepsInv(s, t, amounts);
    case Written => AskTakeKeepsInv(s, t, amounts);
    case Rewritten => AskReturnKeepsInv(s, t, amounts);
    case Asked => GrantingKeepsInv(s, t, amounts);
    case Returning => ReturningKeepsInv(s, t, amounts);
    case Granted => ReadKeepsInv(s, t, amounts);
    case Served => ServingKeepsInv(s, t, amounts);
    case Returned => LeavingKeepsInv(s, t, amounts);
    case Gone =>
  }

  // Every take request finds a free faucet: of the two students admitted, the one who asks has none.
  lemma FaucetIsFree(s: State, n: nat)
    requires Inv(s, n) && s.server == Taking
    ensures s.inside.Some? && !(s.busy[0] && s.busy[1])
  {
    if s.busy[0] && s.busy[1] {
      var a, b, t := s.owner[0].value, s.owner[1].value, s.inside.value;
      assert {a, b, t} <= s.admitted;
      SubsetSize({a, b, t}, s.admitted);
    }
  }

  lemma SubsetSize(a: set<nat>, b: set<nat>)
    requires a <= b
    ensures |a| <= |b|
  {
    assert b == a + (b - a);
  }

  lemma WakeKeepsInv(s: State, n: nat)
    requires Inv(s, n) && s.server == Idle
    ensures Inv(ServerStep(s), n)
  {
  }

  lemma ReadRequestKeepsInv(s: State, n: nat)
    requires Inv(s, n) && s.server == Woken
    ensures Inv(ServerStep(s), n)
  {
  }

  lemma TakeKeepsInv(s: State, n: nat)
    requires Inv(s, n) && s.server == Taking
    ensures Inv(ServerStep(s), n)
  {
    FaucetIsFree(s, n);
  }

  lemma GrantKeepsInv(s: State, n: nat)
    requires Inv(s, n) && (s.server.Marked? || s.server.Wrote?)
    ensures Inv(ServerStep(s), n)
  {
  }

  lemma FreeKeepsInv(s: State, n: nat)
    requires Inv(s, n) && s.server.Freeing?
    ensures Inv(ServerStep(s), n)
  {
  }

  lemma ReleaseKeepsInv(s: State, n: nat)
    requires Inv(s, n) && s.server == Cleared
    ensures Inv(ServerStep(s), n)
  {
    ReleaseKeepsOwnership(s, n);
    ReleaseKeepsAdmission(s, n);
  }

  lemma ReleaseKeepsOwnership(s: State, n: nat)
    requires Shape(s, n) && Ownership(s) && s.server == Cleared
    ensures Ownership(ServerStep(s))
  {
    var s' := ServerStep(s);
    assert forall u :: 0 <= u < |s.pc| ==> Has(s', u) == Has(s, u) && (Has(s, u) ==> Which(s', u) == Which(s, u));
  }

  lemma ReleaseKeepsAdmission(s: State, n: nat)
    requires Shape(s, n) && Mutex(s) && Handshake(s) && Admission(s) && s.server == Cleared
    ensures Admission(ServerStep(s))
  {
    var s', t := ServerStep(s), s.inside.value;
    assert s.pc[t] == Returning && t in s.admitted;
    forall u: nat
      ensures u in s'.admitted <==> u < |s'.pc| && Admitted(s', u)
    {
      assert u < |s.pc| && u != t ==> s.pc[u] != Returning && Admitted(s', u) == Admitted(s, u);
    }
  }

  lemma FinishKeepsInv(s: State, n: nat)
    requires Inv(s, n) && s.server == Released
    ensures Inv(ServerStep(s), n)
  {
  }

  lemma ServerKeepsInv(s: State, n: nat)
    requires Inv(s, n)
    ensures Inv(ServerStep(s), n)
  {
    match s.server
    case Idle => WakeKeepsInv(s, n);
    case Woken => ReadRequestKeepsInv(s, n);
    case Taking => TakeKeepsInv(s, n);
    case Marked(_) | Wrote(_) => GrantKeepsInv(s, n);
    case Freeing(_) => FreeKeepsInv(s, n);
    case Cleared => ReleaseKeepsInv(s, n);
    case Released => FinishKeepsInv(s, n);
    case Astray =>
  }

  // ---------------------------------------------------------------------
  // The results, for any number of students and every interleaving

  lemma {:induction false} EveryRun(acts: seq<Action>, amounts: seq<string>)
    requires OneDigit(amounts)
    ensures Inv(Run(Start(|amounts|), acts, amounts), |amounts|)
  {
    if acts != [] {
      var s, a := Run(Start(|amounts|), acts[..|acts| - 1], amounts), acts[|acts| - 1];
      EveryRun(acts[..|acts| - 1], amounts);
      match a
      case Student(t) => if t < |amounts| { StudentKeepsInv(s, t, amounts); }
      case Serve => ServerKeepsInv(s, |amounts|);
    }
  }

  predicate Drinks(s: State, t: nat) {
    t < |s.pc| && s.pc[t] in {Served, Drinking, Reentered, Rewritten}
  }

  // Every student with a faucet has faucet 1 or 2, which the server has marked as busy.
  lemma DrinkerHasFaucet(acts: seq<Action>, amounts: seq<string>, t: nat)
    requires OneDigit(amounts) && Drinks(Run(Start(|amounts|), acts, amounts), t)
    ensures var s := Run(Start(|amounts|), acts, amounts);
            Shape(s, |amounts|) && 1 <= s.faucetId[t] <= 2 && s.busy[s.faucetId[t] - 1]
  {
    var s := Run(Start(|amounts|), acts, amounts);
    EveryRun(acts, amounts);
    assert Inv(s, |amounts|);
    OwnFaucet(s, |amounts|, t);
  }

  // No two students ever have the same faucet.
  lemma FaucetsNotShared(acts: seq<Action>, amounts: seq<string>, t: nat, u: nat)
    requires OneDigit(amounts) && t != u
    requires var s := Run(Start(|amounts|), acts, amounts); Drinks(s, t) && Drinks(s, u)
    ensures var s := Run(Start(|amounts|), acts, amounts);
            Shape(s, |amounts|) && s.faucetId[t] != s.faucetId[u]
  {
    EveryRun(acts, amounts);
    OwnFaucet(Run(Start(|amounts|), acts, amounts), |amounts|, t);
    OwnFaucet(Run(Start(|amounts|), acts, amounts), |amounts|, u);
  }

  lemma OwnFaucet(s: State, n: nat, t: nat)
    requires Shape(s, n) && Ownership(s) && Drinks(s, t)
    ensures 1 <= s.faucetId[t] <= 2 && s.busy[s.faucetId[t] - 1] && s.owner[s.faucetId[t] - 1] == Some(t)
  {
    assert Has(s, t);
  }

  // At most one request is outstanding, and the server never loses its way: a take request finds a free
  // faucet, and a return request names the faucet that its sender holds.
  lemma ServerAlwaysAnswers(acts: seq<Action>, amounts: seq<string>)
    requires OneDigit(amounts)
    ensures var s := Run(Start(|amounts|), acts, amounts);
            && Shape(s, |amounts|)
            && s.requestWater + s.openWater <= 1
            && s.server != Astray
            && (s.server != Idle ==> s.requestWater == s.openWater == 0)
            && (s.server == Taking ==> ServerStep(s).server.Marked?)
            && (s.server.Freeing? ==> s.server.value < 2 && exists t :: 0 <= t < |s.pc| && s.pc[t] == Returning && s.server.value == s.faucetId[t] - 1 && s.owner[s.server.value] == Some(t))
  {
    EveryRun(acts, amounts);
    var s := Run(Start(|amounts|), acts, amounts);
    if s.server == Taking {
      FaucetIsFree(s, |amounts|);
    }
    if s.server.Freeing? {
      var t := s.inside.value;
      assert Has(s, t) && s.pc[t] == Returning;
    }
  }

  ghost predicate AllGone(s: State) {
    forall t :: 0 <= t < |s.pc| ==> s.pc[t] == Gone
  }

  lemma RestoredWhenGone(s: State, n: nat)
    requires Inv(s, n) && AllGone(s)
    ensures s.busy == [false, false] && s.faucet == 2 && s.pipeMutex == 1 && Quiet(s)
  {
    assert s.inside.Some? ==> InPipe(s.pc[s.inside.value]);
    forall t: nat | t < |s.pc|
      ensures !Admitted(s, t) && !Has(s, t)
    {
      assert s.pc[t] == Gone;
    }
    assert s.admitted == {};
  }

  // When everybody has left, both faucets are free again and all semaphores are back at their start.
  lemma AllReturned(acts: seq<Action>, amounts: seq<string>)
    requires OneDigit(amounts) && AllGone(Run(Start(|amounts|), acts, amounts))
    ensures var s := Run(Start(|amounts|), acts, amounts);
            s.busy == [false, false] && s.faucet == 2 && s.pipeMutex == 1 && Quiet(s)
  {
    EveryRun(acts, amounts);
    RestoredWhenGone(Run(Start(|amounts|), acts, amounts), |amounts|);
  }

  // ---------------------------------------------------------------------
  // The server keeps within its array exactly under a condition on the amounts.

  ghost predicate Reachable(s: State, amounts: seq<string>) {
    exists acts :: s == Run(Start(|amounts|), acts, amounts)
  }

  lemma Then(s: State, a: Action, amounts: seq<string>) returns (s': State)
    requires Reachable(s, amounts)
    ensures s' == Next(s, a, amounts) && Reachable(s', amounts)
  {
    var acts :| s == Run(Start(|amounts|), acts, amounts);
    s' := Next(s, a, amounts);
    assert (acts + [a])[..|acts|] == acts;
    assert s' == Run(Start(|amounts|), acts + [a], amounts);
  }

  lemma ThenStudent(s: State, t: nat, amounts: seq<string>) returns (s': State)
    requires Reachable(s, amounts) && t < |s.pc| == |s.faucetId| == |amounts|
    ensures s' == StudentStep(s, t, amounts) && Reachable(s', amounts)
  {
    s' := Then(s, Student(t), amounts);
  }

  lemma ThenServe(s: State, amounts: seq<string>) returns (s': State)
    requires Reachable(s, amounts) && |s.busy| == |s.owner| == 2
    ensures s' == ServerStep(s) && Reachable(s', amounts)
  {
    s' := Then(s, Serve, amounts);
  }

  // Nothing is under way, and a faucet can be had.
  predicate Calm(s: State, n: nat) {
    |s.pc| == |s.faucetId| == n && |s.busy| == |s.owner| == 2 && s.pipeMutex == 1 && Quiet(s)
  }

  lemma SendTake(s: State, t: nat, amounts: seq<string>) returns (s': State)
    requires Reachable(s, amounts) && Calm(s, |amounts|) && t < |amounts| && s.pc[t] == Arriving && s.faucet > 0
    ensures Reachable(s', amounts)
    ensures s' == s.(pc := s.pc[t := Asked], faucet := s.faucet - 1, pipeMutex := 0, request := TakeRequest(amounts[t]), requestWater := 1, inside := Some(t), admitted := s.admitted + {t})
  {
    s' := ThenStudent(s, t, amounts);
    s' := ThenStudent(s', t, amounts);
    s' := ThenStudent(s', t, amounts);
    s' := ThenStudent(s', t, amounts);
  }

  lemma ReadsTake(s: State, amounts: seq<string>) returns (s': State)
    requires Reachable(s, amounts) && |s.busy| == |s.owner| == 2
    requires s.server == Idle && s.requestWater == 1 && ReadRequest(s.request).0 == 0
    ensures Reachable(s', amounts) && s' == s.(server := Taking, requestWater := 0)
  {
    s' := ThenServe(s, amounts);
    s' := ThenServe(s', amounts);
  }

  lemma Marks(s: State, k: nat, amounts: seq<string>) returns (s': State)
    requires Reachable(s, amounts) && |s.busy| == |s.owner| == 2 && s.server == Taking
    requires k < 2 && !s.busy[k] && (k == 1 ==> s.busy[0])
    ensures Reachable(s', amounts)
    ensures s' == s.(server := Marked(k), busy := s.busy[k := true], owner := s.owner[k := s.inside])
  {
    MarksFirstFree(s, k);
    s' := ThenServe(s, amounts);
  }

  lemma MarksFirstFree(s: State, k: nat)
    requires |s.busy| == |s.owner| == 2 && s.server == Taking && k < 2 && !s.busy[k] && (k == 1 ==> s.busy[0])
    ensures ServerStep(s) == s.(server := Marked(k), busy := s.busy[k := true], owner := s.owner[k := s.inside])
  {
  }

  lemma Announces(s: State, k: nat, amounts: seq<string>) returns (s': State)
    requires Reachable(s, amounts) && |s.busy| == |s.owner| == 2 && s.server == Marked(k)
    ensures Reachable(s', amounts)
    ensures s' == s.(server := Idle, faucetTxt := k + 1, openWater := s.openWater + 1)
  {
    s' := ThenServe(s, amounts);
    s' := ThenServe(s', amounts);
  }

  lemma AnswerTake(s: State, t: nat, k: nat, amounts: seq<string>) returns (s': State)
    requires Reachable(s, amounts) && |s.pc| == |s.faucetId| == |amounts| && |s.busy| == |s.owner| == 2
    requires s.server == Idle && s.requestWater == 1 && s.openWater == 0 && ReadRequest(s.request).0 == 0
    requires k < 2 && !s.busy[k] && (k == 1 ==> s.busy[0])
    ensures Reachable(s', amounts)
    ensures s' == s.(busy := s.busy[k := true], owner := s.owner[k := s.inside], faucetTxt := k + 1, requestWater := 0, openWater := 1)
  {
    s' := ReadsTake(s, amounts);
    s' := Marks(s', k, amounts);
    s' := Announces(s', k, amounts);
  }

  lemma Receive(s: State, t: nat, amounts: seq<string>) returns (s': State)
    requires Reachable(s, amounts) && |s.pc| == |s.faucetId| == |amounts| && t < |amounts| && s.pc[t] == Asked && s.openWater == 1
    ensures Reachable(s', amounts)
    ensures s' == s.(pc := s.pc[t := Drinking], faucetId := s.faucetId[t := s.faucetTxt], openWater := 0, pipeMutex := s.pipeMutex + 1, inside := None)
  {
    s' := ThenStudent(s, t, amounts);
    s' := ThenStudent(s', t, amounts);
    s' := ThenStudent(s', t, amounts);
  }

  // A whole exchange: student t gets faucet k.
  lemma Takes(s: State, t: nat, k: nat, amounts: seq<string>) returns (s': State)
    requires Reachable(s, amounts) && Calm(s, |amounts|) && t < |amounts| && s.pc[t] == Arriving && s.faucet > 0
    requires k < 2 && !s.busy[k] && (k == 1 ==> s.busy[0]) && amounts[t] != [] && AllDigits(amounts[t])
    ensures Reachable(s', amounts) && Calm(s', |amounts|)
    ensures s'.pc == s.pc[t := Drinking] && s'.faucetId == s.faucetId[t := k + 1] && s'.busy == s.busy[k := true]
    ensures s'.faucet == s.faucet - 1 && s'.request == TakeRequest(amounts[t])
  {
    s' := SendTake(s, t, amounts);
    ReadsTwoNumbers('0', amounts[t]);
    s' := AnswerTake(s', t, k, amounts);
    s' := Receive(s', t, amounts);
  }

  lemma Reenters(s: State, t: nat, amounts: seq<string>) returns (s': State)
    requires Reachable(s, amounts) && Calm(s, |amounts|) && t < |amounts| && s.pc[t] == Drinking
    ensures Reachable(s', amounts) && s' == s.(pc := s.pc[t := Reentered], pipeMutex := 0, inside := Some(t))
  {
    s' := ThenStudent(s, t, amounts);
  }

  lemma SendReturn(s: State, t: nat, amounts: seq<string>) returns (s': State)
    requires Reachable(s, amounts) && Calm(s, |amounts|) && t < |amounts| && s.pc[t] == Drinking && 1 <= s.faucetId[t] <= 2
    ensures Reachable(s', amounts) && s'.server == Idle && s'.requestWater == 1 && |s'.busy| == |s'.owner| == 2
    ensures s'.request == Overwrite(s.request, ReturnRequest(s.faucetId[t] - 1))
  {
    s' := Reenters(s, t, amounts);
    s' := Rewrites(s', t, amounts);
    s' := Sends(s', t, amounts);
  }

  lemma Sends(s: State, t: nat, amounts: seq<string>) returns (s': State)
    requires Reachable(s, amounts) && |s.faucetId| == |s.pc| == |amounts| && t < |amounts| && s.pc[t] == Rewritten
    ensures Reachable(s', amounts) && s' == s.(pc := s.pc[t := Returning], requestWater := s.requestWater + 1)
  {
    s' := ThenStudent(s, t, amounts);
  }

  lemma Rewrites(s: State, t: nat, amounts: seq<string>) returns (s': State)
    requires Reachable(s, amounts) && |s.faucetId| == |s.pc| == |amounts| && t < |amounts| && s.pc[t] == Reentered && 1 <= s.faucetId[t] <= 2
    ensures Reachable(s', amounts)
    ensures s' == s.(pc := s.pc[t := Rewritten], request := Overwrite(s.request, ReturnRequest(s.faucetId[t] - 1)))
  {
    s' := ThenStudent(s, t, amounts);
  }

  lemma MisreadsReturn(s: State, amounts: seq<string>) returns (s': State)
    requires Reachable(s, amounts) && |s.busy| == |s.owner| == 2 && s.server == Idle && s.requestWater == 1
    requires ReadRequest(s.request).0 == 1 && ReadRequest(s.request).1 >= 2
    ensures Reachable(s', amounts) && s'.server == Astray
  {
    s' := ThenServe(s, amounts);
    s' := ThenServe(s', amounts);
    s' := ThenServe(s', amounts);
  }

  // The number that is left over of a take request behind a return request.
  function LeftOver(amount: string): nat
    requires amount != [] && AllDigits(amount)
  {
    assert forall i :: 0 <= i < |amount[1..]| ==> amount[1..][i] == amount[i + 1];
    Decimal(amount[1..])
  }

  // What is left over of a longer request makes faucet 1 a number beyond the array, and faucet 0 whatever it is.
  lemma ReadsLeftOver(amount: string, faucet: nat)
    requires |amount| > 1 && AllDigits(amount) && faucet < 2
    ensures var read := ReadRequest(Overwrite(TakeRequest(amount), ReturnRequest(faucet)));
            read.0 == 1 && (faucet == 0 ==> read.1 == LeftOver(amount)) && (faucet == 1 ==> read.1 >= 10)
  {
    var c, left := ('0' as int + faucet) as char, amount[1..];
    assert Overwrite(TakeRequest(amount), ReturnRequest(faucet)) == ['1', ' '] + ([c] + left);
    ReadsTwoNumbers('1', [c] + left);
    DecimalSplit(c, left);
    if faucet == 0 {
      LeadingZero(left);
    }
  }

  lemma {:induction false} LeadingZero(digits: string)
    requires AllDigits(digits)
    ensures Decimal(['0'] + digits) == Decimal(digits)
  {
    if digits != [] {
      var n := |digits| - 1;
      LeadingZero(digits[..n]);
      assert (['0'] + digits)[..n + 1] == ['0'] + digits[..n];
    }
  }

  lemma Opens(amounts: seq<string>) returns (s: State)
    ensures Reachable(s, amounts) && Calm(s, |amounts|) && s.faucet == 2 && s.busy == [false, false]
    ensures forall t :: 0 <= t < |amounts| ==> s.pc[t] == Arriving
  {
    s := Start(|amounts|);
    assert s == Run(s, [], amounts);
  }

  // Two students, the second with a longer amount.
  lemma GoesAstray(amounts: seq<string>, a: nat, b: nat) returns (s: State)
    requires a < |amounts| && b < |amounts| && a != b
    requires amounts[a] != [] && AllDigits(amounts[a]) && |amounts[b]| > 1 && AllDigits(amounts[b])
    ensures Reachable(s, amounts) && s.server == Astray
  {
    s := Opens(amounts);
    s := Takes(s, a, 0, amounts);
    s := Takes(s, b, 1, amounts);
    s := ReturnsBadly(s, b, amounts);
  }

  // A single student whose leftovers are 2 or more.
  lemma GoesAstrayAlone(amounts: seq<string>) returns (s: State)
    requires |amounts| == 1 && |amounts[0]| > 1 && AllDigits(amounts[0]) && LeftOver(amounts[0]) >= 2
    ensures Reachable(s, amounts) && s.server == Astray
  {
    s := Opens(amounts);
    s := Takes(s, 0, 0, amounts);
    s := ReturnsBadly(s, 0, amounts);
  }

  lemma ReturnsBadly(s: State, t: nat, amounts: seq<string>) returns (s': State)
    requires Reachable(s, amounts) && Calm(s, |amounts|) && t < |amounts| && s.pc[t] == Drinking && 1 <= s.faucetId[t] <= 2
    requires |amounts[t]| > 1 && AllDigits(amounts[t]) && s.request == TakeRequest(amounts[t])
    requires s.faucetId[t] == 2 || LeftOver(amounts[t]) >= 2
    ensures Reachable(s', amounts) && s'.server == Astray
  {
    ReadsLeftOver(amounts[t], s.faucetId[t] - 1);
    s' := SendReturn(s, t, amounts);
    s' := MisreadsReturn(s', amounts);
  }

  // A single student always gets faucet 0, so that with leftovers below 2 the server stays within its array,
  // though it may free the wrong faucet.
  ghost predicate Alone(s: State, amount: string) {
    && Shape(s, 1)
    && var take, back := TakeRequest(amount), Overwrite(TakeRequest(amount), ReturnRequest(0));
       match s.pc[0]
       case Arriving | Queueing | Entered => Quiet(s) && !s.busy[0]
       case Written => Quiet(s) && !s.busy[0] && s.request == take
       case Asked =>
         && s.request == take && s.requestWater + s.openWater <= 1
         && (s.requestWater == 1 || s.server in {Woken, Taking} ==> !s.busy[0])
         && (s.openWater == 1 || s.server.Wrote? ==> s.faucetTxt == 1)
         && (s.server.Marked? ==> s.server.which == 0)
         && (s.requestWater + s.openWater == 1 ==> s.server == Idle)
         && s.server !in {Cleared, Released, Astray} && !s.server.Freeing?
       case Granted => Quiet(s) && s.request == take && s.faucetTxt == 1
       case Served | Drinking | Reentered => Quiet(s) && s.request == take && s.faucetId[0] == 1
       case Rewritten => Quiet(s) && s.request == back
       case Returning =>
         && s.request == back && s.requestWater + s.openWater <= 1
         && (s.requestWater + s.openWater == 1 ==> s.server == Idle)
         && (s.server in {Idle, Woken, Cleared, Released} || (s.server.Freeing? && s.server.value < 2))
       case Returned | Gone => Quiet(s)
  }

  lemma StudentAlone(s: State, amounts: seq<string>)
    requires |amounts| == 1 && Alone(s, amounts[0])
    ensures Alone(StudentStep(s, 0, amounts), amounts[0])
  {
  }

  lemma ServerAlone(s: State, amount: string)
    requires |amount| > 1 && AllDigits(amount) && LeftOver(amount) < 2 && Alone(s, amount)
    ensures Alone(ServerStep(s), amount)
  {
    if s.server == Woken {
      ReadsLeftOver(amount, 0);
      ReadsTwoNumbers('0', amount);
    } else {
      OtherwiseAlone(s, amount);
    }
  }

  lemma OtherwiseAlone(s: State, amount: string)
    requires Alone(s, amount) && s.server != Woken
    ensures Alone(ServerStep(s), amount)
  {
  }

  lemma {:induction false} EveryRunAlone(acts: seq<Action>, amounts: seq<string>)
    requires |amounts| == 1 && |amounts[0]| > 1 && AllDigits(amounts[0]) && LeftOver(amounts[0]) < 2
    ensures Alone(Run(Start(1), acts, amounts), amounts[0])
  {
    if acts != [] {
      var s, a := Run(Start(1), acts[..|acts| - 1], amounts), acts[|acts| - 1];
      EveryRunAlone(acts[..|acts| - 1], amounts);
      match a
      case Student(t) => if t == 0 { StudentAlone(s, amounts); }
      case Serve => ServerAlone(s, amounts[0]);
    }
  }

  // What a caller can check: every amount has one digit, or there is one student only, and what is left over of
  // its amount is 0 or 1.
  predicate SafeAmounts(amounts: seq<string>)
    requires forall t :: 0 <= t < |amounts| ==> amounts[t] != [] && AllDigits(amounts[t])
  {
    (forall t :: 0 <= t < |amounts| ==> |amounts[t]| == 1) || (|amounts| == 1 && LeftOver(amounts[0]) < 2)
  }

  // For any number of students, the server keeps within its array in every run exactly under that condition.
  lemma SafeExactly(amounts: seq<string>)
    requires forall t :: 0 <= t < |amounts| ==> amounts[t] != [] && AllDigits(amounts[t])
    ensures (forall s :: Reachable(s, amounts) ==> s.server != Astray) <==> SafeAmounts(amounts)
  {
    if SafeAmounts(amounts) {
      forall s | Reachable(s, amounts)
        ensures s.server != Astray
      {
        StaysInside(s, amounts);
      }
    } else {
      var s := GetsOutside(amounts);
    }
  }

  lemma StaysInside(s: State, amounts: seq<string>)
    requires (forall t :: 0 <= t < |amounts| ==> amounts[t] != [] && AllDigits(amounts[t])) && SafeAmounts(amounts)
    requires Reachable(s, amounts)
    ensures s.server != Astray
  {
    var acts :| s == Run(Start(|amounts|), acts, amounts);
    if OneDigit(amounts) {
      ServerAlwaysAnswers(acts, amounts);
    } else {
      EveryRunAlone(acts, amounts);
    }
  }

  lemma GetsOutside(amounts: seq<string>) returns (s: State)
    requires (forall t :: 0 <= t < |amounts| ==> amounts[t] != [] && AllDigits(amounts[t])) && !SafeAmounts(amounts)
    ensures Reachable(s, amounts) && s.server == Astray
  {
    var b :| 0 <= b < |amounts| && |amounts[b]| != 1;
    if |amounts| == 1 {
      s := GoesAstrayAlone(amounts);
    } else {
      s := GoesAstray(amounts, if b == 0 then 1 else 0, b);
    }
  }

  // One student with amount 12 is enough to send the server astray; with 10 or 11 it is not.
  lemma OneStudentInputs()
    ensures !SafeAmounts(["12"]) && SafeAmounts(["10"]) && SafeAmounts(["11"])
  {
    assert "12"[1..] == "2" && "10"[1..] == "0" && "11"[1..] == "1";
    assert Decimal("2") == 2 && Decimal("0") == 0 && Decimal("1") == 1;
  }

  // ---------------------------------------------------------------------
  // Nobody waits for ever: as long as a student is not gone, some step changes the state.

  lemma StuckMeansGone(s: State, amounts: seq<string>)
    requires Inv(s, |amounts|) && OneDigit(amounts)
    requires ServerStep(s) == s && forall t :: 0 <= t < |amounts| ==> StudentStep(s, t, amounts) == s
    ensures AllGone(s)
  {
    NobodyInPipe(s, amounts);
    NobodyAdmitted(s, amounts);
    forall t | 0 <= t < |s.pc|
      ensures s.pc[t] == Gone
    {
      assert StudentStep(s, t, amounts) == s && !InPipe(s.pc[t]);
    }
  }

  lemma NobodyInPipe(s: State, amounts: seq<string>)
    requires Inv(s, |amounts|) && OneDigit(amounts)
    requires ServerStep(s) == s && forall t :: 0 <= t < |amounts| ==> StudentStep(s, t, amounts) == s
    ensures s.inside.None?
  {
    assert s.inside.Some? ==> InPipe(s.pc[s.inside.value]) && StudentStep(s, s.inside.value, amounts) == s;
  }

  // With the pipe free, an admitted student could enter it; so when nobody can step, nobody is admitted.
  lemma NobodyAdmitted(s: State, amounts: seq<string>)
    requires Inv(s, |amounts|) && s.inside.None? && forall t :: 0 <= t < |amounts| ==> StudentStep(s, t, amounts) == s
    ensures s.faucet == 2
  {
    forall t: nat | t < |s.pc|
      ensures !Admitted(s, t)
    {
      assert StudentStep(s, t, amounts) == s && !InPipe(s.pc[t]);
    }
    assert s.admitted == {};
  }

  lemma NoDeadlock(acts: seq<Action>, amounts: seq<string>)
    requires OneDigit(amounts)
    requires forall a :: Next(Run(Start(|amounts|), acts, amounts), a, amounts) == Run(Start(|amounts|), acts, amounts)
    ensures AllGone(Run(Start(|amounts|), acts, amounts))
  {
    var s := Run(Start(|amounts|), acts, amounts);
    EveryRun(acts, amounts);
    assert Next(s, Serve, amounts) == s;
    forall t | 0 <= t < |amounts|
      ensures StudentStep(s, t, amounts) == s
    {
      assert Next(s, Student(t), amounts) == s;
    }
    StuckMeansGone(s, amounts);
  }
}
