/** How a sweep assigns the RGB amounts of the outputs it spends to the outputs it creates. */
module SweepColoring {
  import opened Wrappers
  import opened Text

  type Txid = nat

  datatype OutPoint = OutPoint(txid: Txid, vout: nat)

  datatype TxOut = TxOut(sats: nat, script: string)

  /** The RGB amounts of a transaction's outputs, as stored when it was made. */
  datatype TransferInfo = TransferInfo(contract: Contract, outputs: map<nat, u64>)

  /** What reading the transfer info of a transaction gives; no entry when it cannot be read. */
  datatype Record = Undecodable | Decoded(info: TransferInfo)

  /** What the wallet and the store answer: whether a closing transaction is confirmed and its witness
      could be updated, and the script a contract's amount is to be received at, if one can be had. */
  datatype Env = Env(records: map<Txid, Record>, witnessed: Txid -> bool, receive: Contract -> Option<string>,
                     dustSats: nat)

  datatype Resolved = Plain | Bad | Coloured(contract: Contract, amount: u64)

  /** An empty map means the transaction carries no RGB; a map that lacks the output is an error. */
  function RgbAmount(outputs: map<nat, u64>, vout: nat): Option<u64> {
    if vout in outputs then Some(outputs[vout])
    else if outputs == map[] then Some(0)
    else None
  }

  function Resolve(env: Env, p: OutPoint): Resolved {
    if p.txid !in env.records then Plain
    else
      match env.records[p.txid]
      case Undecodable => Bad
      case Decoded(info) =>
        match RgbAmount(info.outputs, p.vout)
        case None => Bad
        case Some(amount) => if amount == 0 then Plain else Coloured(info.contract, amount)
  }

  /** Whether nothing stands in the way of sweeping this output. */
  predicate Sweepable(env: Env, p: OutPoint) {
    match Resolve(env, p)
    case Plain => true
    case Bad => false
    case Coloured(contract, _) => env.witnessed(p.txid) && env.receive(contract).Some?
  }

  // ----- the same on the stored records

  /** What the record of its transaction says an output carries of a contract. */
  function Recorded(env: Env, p: OutPoint, c: Contract): u64 {
    if p.txid !in env.records then 0
    else
      match env.records[p.txid]
      case Undecodable => 0
      case Decoded(info) => if info.contract == c && p.vout in info.outputs then info.outputs[p.vout] else 0
  }

  /** The record does not decode; or it has outputs, but not this one; or it gives this one an amount, and the
      transaction has no witness or there is no script to receive the contract with. */
  ghost predicate Defective(env: Env, p: OutPoint) {
    && p.txid in env.records
    && var record := env.records[p.txid];
       || record == Undecodable
       || (record.info.outputs.Keys != {} && p.vout !in record.info.outputs.Keys)
       || (exists c :: Recorded(env, p, c) > 0 && (!env.witnessed(p.txid) || env.receive(c) == None))
  }

  /** No record, an empty one, or one that gives this output nothing. */
  ghost predicate WithoutRgb(env: Env, p: OutPoint) {
    p.txid in env.records ==>
      var record := env.records[p.txid];
      && record.Decoded?
      && (record.info.outputs.Keys == {} || (p.vout in record.info.outputs && record.info.outputs[p.vout] == 0))
  }

  lemma ResolvedAsRecorded(env: Env, p: OutPoint)
    ensures Sweepable(env, p) <==> !Defective(env, p)
    ensures Resolve(env, p) == Plain <==> WithoutRgb(env, p)
    ensures Resolve(env, p) == Plain ==> forall c :: Recorded(env, p, c) == 0
    ensures Resolve(env, p).Coloured? ==>
      var r := Resolve(env, p);
      r.amount > 0 && forall c :: Recorded(env, p, c) == if c == r.contract then r.amount else 0
  {
    if Resolve(env, p).Coloured? {
      assert Recorded(env, p, Resolve(env, p).contract) > 0;
    }
  }

  /** What the outputs hold of a contract, summed exactly. */
  function Held(env: Env, points: seq<OutPoint>, c: Contract): nat {
    if points == [] then 0
    else
      var n := |points| - 1;
      Held(env, points[..n], c) + Recorded(env, points[n], c)
  }

  predicate Carries(env: Env, points: seq<OutPoint>, c: Contract) {
    exists p <- points :: Recorded(env, p, c) > 0
  }

  datatype Assignment = Assignment(vout: nat, amount: u64)

  type Assignments = map<Contract, Assignment>

  ghost predicate Taken(a: Assignments, v: nat) { exists c :: c in a && a[c].vout == v }

  /** The numbers 0 to k-1, each given to one of the k contracts. */
  ghost predicate Numbered(a: Assignments) {
    && (forall c :: c in a ==> a[c].vout < |a|)
    && (forall c, d :: c in a && d in a && a[c].vout == a[d].vout ==> c == d)
    && (forall v :: 0 <= v < |a| ==> Taken(a, v))
  }

  /** A contract is assigned exactly if it is carried, and then what the outputs hold of it, as a 64-bit
      number. */
  ghost predicate ConservesOf(env: Env, points: seq<OutPoint>, a: Assignments, c: Contract) {
    (c in a <==> Carries(env, points, c)) && (c in a ==> a[c].amount == Held(env, points, c) % TWO_64)
  }

  ghost predicate Conserves(env: Env, points: seq<OutPoint>, a: Assignments) {
    forall c :: ConservesOf(env, points, a, c)
  }

  /** The output for each contract follows the extra outputs, in the order of the numbers. */
  ghost predicate Placed(env: Env, extra: seq<TxOut>, txouts: seq<TxOut>, a: Assignments) {
    && |txouts| == |extra| + |a|
    && txouts[..|extra|] == extra
    && (forall c :: c in a && a[c].vout < |a| ==>
          env.receive(c).Some? && txouts[|extra| + a[c].vout] == TxOut(env.dustSats, env.receive(c).value))
  }

  lemma CarriesOneMore(env: Env, points: seq<OutPoint>, i: nat, c: Contract)
    requires i < |points|
    ensures Carries(env, points[..i + 1], c) <==>
            Carries(env, points[..i], c) || Recorded(env, points[i], c) > 0
    ensures Held(env, points[..i + 1], c) == Held(env, points[..i], c) + Recorded(env, points[i], c)
  {
    var short, long := points[..i], points[..i + 1];
    assert long == short + [points[i]];
    assert long[..i] == short;
  }

  lemma {:induction false} NotCarriedNotHeld(env: Env, points: seq<OutPoint>, c: Contract)
    requires !Carries(env, points, c)
    ensures Held(env, points, c) == 0
  {
    if points != [] {
      var n := |points| - 1;
      assert points[..n + 1] == points;
      CarriesOneMore(env, points, n, c);
      NotCarriedNotHeld(env, points[..n], c);
    }
  }

  lemma AddContract(a: Assignments, c: Contract, amount: u64)
    requires Numbered(a) && c !in a
    ensures Numbered(a[c := Assignment(|a|, amount)])
  {
    var b := a[c := Assignment(|a|, amount)];
    assert |b| == |a| + 1;
    forall v | 0 <= v < |b| ensures Taken(b, v) {
      if v < |a| {
        assert Taken(a, v);
        var d :| d in a && a[d].vout == v;
        assert b[d].vout == v;
      } else {
        assert b[c].vout == v;
      }
    }
  }

  lemma AddAmount(a: Assignments, c: Contract, amount: u64)
    requires Numbered(a) && c in a
    ensures Numbered(a[c := Assignment(a[c].vout, amount)])
  {
    var b := a[c := Assignment(a[c].vout, amount)];
    assert b.Keys == a.Keys && |b| == |a|;
    forall v | 0 <= v < |b| ensures Taken(b, v) {
      assert Taken(a, v);
      var d :| d in a && a[d].vout == v;
      assert b[d].vout == v;
    }
  }

  /** Going through the outputs, the one contract is met before the other. */
  ghost predicate MetBefore(env: Env, points: seq<OutPoint>, c: Contract, d: Contract) {
    exists i :: 0 <= i <= |points| && Carries(env, points[..i], c) && !Carries(env, points[..i], d)
  }

  /** The numbers follow the order in which the contracts are first met. */
  ghost predicate InOrderMet(env: Env, points: seq<OutPoint>, a: Assignments) {
    forall c, d :: c in a && d in a && a[c].vout < a[d].vout ==> MetBefore(env, points, c, d)
  }

  lemma MetBeforeStays(env: Env, points: seq<OutPoint>, i: nat, c: Contract, d: Contract)
    requires i < |points| && MetBefore(env, points[..i], c, d)
    ensures MetBefore(env, points[..i + 1], c, d)
  {
    var short, long := points[..i], points[..i + 1];
    var j :| 0 <= j <= i && Carries(env, short[..j], c) && !Carries(env, short[..j], d);
    assert long[..j] == short[..j];
  }

  lemma OrderStays(env: Env, points: seq<OutPoint>, i: nat, a: Assignments, b: Assignments)
    requires i < |points| && InOrderMet(env, points[..i], a)
    requires b.Keys == a.Keys && forall c <- a.Keys :: b[c].vout == a[c].vout
    ensures InOrderMet(env, points[..i + 1], b)
  {
    var long := points[..i + 1];
    forall c, d | c in b && d in b && b[c].vout < b[d].vout ensures MetBefore(env, long, c, d) {
      assert c in a.Keys && d in a.Keys;
      MetBeforeStays(env, points, i, c, d);
    }
  }

  lemma OrderGrows(env: Env, points: seq<OutPoint>, i: nat, a: Assignments, r: Contract, amount: u64)
    requires i < |points| && InOrderMet(env, points[..i], a) && Numbered(a) && Conserves(env, points[..i], a) && r !in a
    ensures InOrderMet(env, points[..i + 1], a[r := Assignment(|a|, amount)])
  {
    var b, short, long := a[r := Assignment(|a|, amount)], points[..i], points[..i + 1];
    assert ConservesOf(env, short, a, r) && long[..i] == short;
    forall c, d | c in b && d in b && b[c].vout < b[d].vout ensures MetBefore(env, long, c, d) {
      if d == r {
        assert ConservesOf(env, short, a, c);
      } else {
        assert c != r ==> c in a;
        MetBeforeStays(env, points, i, c, d);
      }
    }
  }

  ghost predicate AssignedUpTo(env: Env, points: seq<OutPoint>, extra: seq<TxOut>, txouts: seq<TxOut>, a: Assignments) {
    Numbered(a) && InOrderMet(env, points, a) && Conserves(env, points, a) && Placed(env, extra, txouts, a)
  }

  lemma AmountAssigned(env: Env, points: seq<OutPoint>, i: nat, extra: seq<TxOut>, txouts: seq<TxOut>, a: Assignments)
    requires i < |points| && Resolve(env, points[i]).Coloured? && Resolve(env, points[i]).contract in a
    requires AssignedUpTo(env, points[..i], extra, txouts, a)
    ensures var r := Resolve(env, points[i]);
            var b := a[r.contract := Assignment(a[r.contract].vout, WrappingAdd(a[r.contract].amount, r.amount))];
            AssignedUpTo(env, points[..i + 1], extra, txouts, b) && |b| == |a| && env.receive(r.contract).Some?
  {
    var r := Resolve(env, points[i]);
    AddAmount(a, r.contract, WrappingAdd(a[r.contract].amount, r.amount));
    OrderStays(env, points, i, a,
      a[r.contract := Assignment(a[r.contract].vout, WrappingAdd(a[r.contract].amount, r.amount))]);
    AmountConserved(env, points, i, a, a[r.contract].vout);
    AmountPlaced(env, extra, txouts, a, r.contract, WrappingAdd(a[r.contract].amount, r.amount));
  }

  lemma ContractAssigned(env: Env, points: seq<OutPoint>, i: nat, extra: seq<TxOut>, txouts: seq<TxOut>, a: Assignments)
    requires i < |points| && Resolve(env, points[i]).Coloured? && Resolve(env, points[i]).contract !in a
    requires env.receive(Resolve(env, points[i]).contract).Some?
    requires AssignedUpTo(env, points[..i], extra, txouts, a)
    ensures var r := Resolve(env, points[i]);
            AssignedUpTo(env, points[..i + 1], extra, txouts + [TxOut(env.dustSats, env.receive(r.contract).value)],
                         a[r.contract := Assignment(|a|, r.amount)])
  {
    var r := Resolve(env, points[i]);
    AddContract(a, r.contract, r.amount);
    OrderGrows(env, points, i, a, r.contract, r.amount);
    AmountConserved(env, points, i, a, |a|);
    PlaceContract(env, extra, txouts, a, r.contract, r.amount);
  }

  /** One coloured output: its amount is added to its contract's, which gets an output of its own the first
      time it is met. */
  method ColourOne(env: Env, points: seq<OutPoint>, i: nat, extra: seq<TxOut>, txouts: seq<TxOut>, assets: Assignments,
                   vout: nat)
      returns (ok: bool, txouts': seq<TxOut>, assets': Assignments, vout': nat)
    requires i < |points| && Resolve(env, points[i]).Coloured? && vout == |assets|
    requires AssignedUpTo(env, points[..i], extra, txouts, assets)
    ensures ok <==> Sweepable(env, points[i])
    ensures ok ==> AssignedUpTo(env, points[..i + 1], extra, txouts', assets') && vout' == |assets'|
  {
    txouts', assets', vout' := txouts, assets, vout;
    var resolved := Resolve(env, points[i]);
    if !env.witnessed(points[i].txid) { return false, txouts', assets', vout'; }
    var contract := resolved.contract;
    if contract in assets {
      AmountAssigned(env, points, i, extra, txouts, assets);
      var a := assets[contract];
      assets' := assets[contract := Assignment(a.vout, WrappingAdd(a.amount, resolved.amount))];
    } else {
      var script := env.receive(contract);
      if script.None? { return false, txouts', assets', vout'; }
      ContractAssigned(env, points, i, extra, txouts, assets);
      txouts' := txouts + [TxOut(env.dustSats, script.value)];
      assets' := assets[contract := Assignment(vout, resolved.amount)];
      vout' := vout + 1;
    }
    return true, txouts', assets', vout';
  }

  ghost predicate NoneDefective(env: Env, points: seq<OutPoint>) { forall p <- points :: !Defective(env, p) }

  ghost predicate AllWithoutRgb(env: Env, points: seq<OutPoint>) { forall p <- points :: WithoutRgb(env, p) }

  lemma AllOneMore(env: Env, points: seq<OutPoint>, i: nat)
    requires i < |points|
    ensures NoneDefective(env, points[..i + 1]) <==> NoneDefective(env, points[..i]) && Sweepable(env, points[i])
    ensures AllWithoutRgb(env, points[..i + 1]) <==> AllWithoutRgb(env, points[..i]) && Resolve(env, points[i]) == Plain
    ensures !Sweepable(env, points[i]) ==> !NoneDefective(env, points)
  {
    ResolvedAsRecorded(env, points[i]);
    assert points[..i + 1] == points[..i] + [points[i]];
    assert points[i] in points;
  }

  /** The loop over the outputs to sweep. It fails exactly when the record of some output is defective. */
  method ColourSweep(env: Env, points: seq<OutPoint>, extra: seq<TxOut>)
      returns (ok: bool, vanilla: bool, txouts: seq<TxOut>, assets: Assignments)
    ensures ok <==> NoneDefective(env, points)
    ensures ok ==> Numbered(assets) && InOrderMet(env, points, assets)
    ensures ok ==> Conserves(env, points, assets) && Placed(env, extra, txouts, assets)
    ensures ok ==> (vanilla <==> AllWithoutRgb(env, points))
    ensures ok && vanilla ==> txouts == extra && assets == map[]
  {
    ok, vanilla, txouts, assets := true, true, extra, map[];
    var vout := 0;
    for i := 0 to |points|
      invariant ok && NoneDefective(env, points[..i])
      invariant vanilla <==> AllWithoutRgb(env, points[..i])
      invariant vanilla ==> txouts == extra && assets == map[]
      invariant vout == |assets|
      invariant AssignedUpTo(env, points[..i], extra, txouts, assets)
    {
      AllOneMore(env, points, i);
      match Resolve(env, points[i]) {
        case Plain =>
          StaysConserved(env, points, i, assets);
          OrderStays(env, points, i, assets, assets);
        case Bad =>
          ok := false;
        case Coloured(_, _) =>
          vanilla := false;
          ok, txouts, assets, vout := ColourOne(env, points, i, extra, txouts, assets, vout);
      }
      if !ok { return; }
    }
    assert points[..|points|] == points;
  }

  function WrappingAdd(a: u64, b: u64): u64 { (a + b) % TWO_64 }

  lemma WrappedSum(held: nat, amount: u64)
    ensures WrappingAdd(held % TWO_64, amount) == (held + amount) % TWO_64
  {
  }

  lemma OtherConserved(env: Env, points: seq<OutPoint>, i: nat, a: Assignments, b: Assignments, c: Contract)
    requires i < |points| && ConservesOf(env, points[..i], a, c) && Recorded(env, points[i], c) == 0
    requires (c in b <==> c in a) && (c in a ==> b[c].amount == a[c].amount)
    ensures ConservesOf(env, points[..i + 1], b, c)
  {
    CarriesOneMore(env, points, i, c);
  }

  lemma MoreConserved(env: Env, points: seq<OutPoint>, i: nat, a: Assignments, b: Assignments, c: Contract)
    requires i < |points| && ConservesOf(env, points[..i], a, c) && c in b
    requires var more := Recorded(env, points[i], c);
             more > 0 && b[c].amount == if c in a then WrappingAdd(a[c].amount, more) else more
    ensures ConservesOf(env, points[..i + 1], b, c)
  {
    CarriesOneMore(env, points, i, c);
    if c in a {
      WrappedSum(Held(env, points[..i], c), Recorded(env, points[i], c));
    } else {
      NotCarriedNotHeld(env, points[..i], c);
    }
  }

  lemma StaysConserved(env: Env, points: seq<OutPoint>, i: nat, a: Assignments)
    requires i < |points| && Conserves(env, points[..i], a) && Resolve(env, points[i]) == Plain
    ensures Conserves(env, points[..i + 1], a)
  {
    ResolvedAsRecorded(env, points[i]);
    var long := points[..i + 1];
    forall c ensures ConservesOf(env, long, a, c) {
      assert ConservesOf(env, points[..i], a, c);
      OtherConserved(env, points, i, a, a, c);
    }
  }

  /** The amount of a coloured output is added to what its contract is assigned, or is all of it. */
  lemma AmountConserved(env: Env, points: seq<OutPoint>, i: nat, a: Assignments, vout: nat)
    requires i < |points| && Conserves(env, points[..i], a) && Resolve(env, points[i]).Coloured?
    ensures var r := Resolve(env, points[i]);
            var amount := if r.contract in a then WrappingAdd(a[r.contract].amount, r.amount) else r.amount;
            Conserves(env, points[..i + 1], a[r.contract := Assignment(vout, amount)])
  {
    var r := Resolve(env, points[i]);
    var amount := if r.contract in a then WrappingAdd(a[r.contract].amount, r.amount) else r.amount;
    var b := a[r.contract := Assignment(vout, amount)];
    ResolvedAsRecorded(env, points[i]);
    var long := points[..i + 1];
    forall c ensures ConservesOf(env, long, b, c) {
      assert ConservesOf(env, points[..i], a, c);
      if c == r.contract { MoreConserved(env, points, i, a, b, c); } else { OtherConserved(env, points, i, a, b, c); }
    }
  }

  lemma AmountPlaced(env: Env, extra: seq<TxOut>, txouts: seq<TxOut>, a: Assignments, c: Contract, amount: u64)
    requires Numbered(a) && Placed(env, extra, txouts, a) && c in a
    ensures var b := a[c := Assignment(a[c].vout, amount)];
            Placed(env, extra, txouts, b) && |b| == |a| && env.receive(c).Some?
  {
    var b := a[c := Assignment(a[c].vout, amount)];
    assert b.Keys == a.Keys && |b| == |a|;
    assert a[c].vout < |a|;
  }

  lemma PlaceContract(env: Env, extra: seq<TxOut>, txouts: seq<TxOut>, a: Assignments, c: Contract, amount: u64)
    requires Numbered(a) && Placed(env, extra, txouts, a) && c !in a && env.receive(c).Some?
    ensures Placed(env, extra, txouts + [TxOut(env.dustSats, env.receive(c).value)], a[c := Assignment(|a|, amount)])
  {
    var b, longer := a[c := Assignment(|a|, amount)], txouts + [TxOut(env.dustSats, env.receive(c).value)];
    assert |b| == |a| + 1;
    assert longer[..|extra|] == txouts[..|extra|];
    forall d | d in b && b[d].vout < |b|
      ensures env.receive(d).Some? && longer[|extra| + b[d].vout] == TxOut(env.dustSats, env.receive(d).value)
    {
      if d != c { assert a[d].vout < |a|; }
    }
  }

  /** Where in the transaction the output pushed for a contract is. */
  function PlaceOf(extra: seq<TxOut>, a: Assignments, c: Contract): nat
    requires c in a
  {
    |extra| + a[c].vout
  }

  /** The number a contract is given is the place of its output exactly when no extra outputs come first;
      otherwise the number points at some other output, and at an extra one for the first contracts. */
  lemma NumberIsPlace(env: Env, extra: seq<TxOut>, txouts: seq<TxOut>, a: Assignments, c: Contract)
    requires Numbered(a) && Placed(env, extra, txouts, a) && c in a
    ensures PlaceOf(extra, a, c) < |txouts| && env.receive(c).Some?
    ensures txouts[PlaceOf(extra, a, c)] == TxOut(env.dustSats, env.receive(c).value)
    ensures PlaceOf(extra, a, c) == a[c].vout <==> extra == []
    ensures a[c].vout < |extra| ==> txouts[a[c].vout] == extra[a[c].vout]
  {
    if a[c].vout < |extra| { assert txouts[a[c].vout] == txouts[..|extra|][a[c].vout]; }
  }

  /** With the sums in range, the assigned amounts are what the outputs hold. */
  lemma InRangeIsExact(env: Env, points: seq<OutPoint>, a: Assignments, c: Contract)
    requires Conserves(env, points, a) && c in a
    ensures a[c].amount == Held(env, points, c) <==> Held(env, points, c) < TWO_64
  {
    assert ConservesOf(env, points, a, c);
  }

  /** Otherwise they are not: two outputs of one contract whose sum wraps around are assigned too little. */
  lemma SumWraps(env: Env, a: Assignments)
    requires env.records == map[1 := Decoded(TransferInfo(7, map[0 := TWO_64 - 1, 1 := 3]))]
    requires Conserves(env, [OutPoint(1, 0), OutPoint(1, 1)], a)
    ensures 7 in a && a[7].amount == 2 && Held(env, [OutPoint(1, 0), OutPoint(1, 1)], 7) == TWO_64 + 2
  {
    var points := [OutPoint(1, 0), OutPoint(1, 1)];
    assert points[..1] == [OutPoint(1, 0)] && points[..1][..0] == [];
    assert Recorded(env, points[0], 7) == TWO_64 - 1 && Recorded(env, points[1], 7) == 3;
    assert ConservesOf(env, points, a, 7);
    assert Held(env, points[..1], 7) == TWO_64 - 1;
  }

  /** With one extra output, the only contract is numbered 0, where the extra output is. */
  lemma ExtraOutputShifts(env: Env, x: TxOut, txouts: seq<TxOut>, a: Assignments)
    requires env.records == map[1 := Decoded(TransferInfo(7, map[0 := 5]))]
    requires Numbered(a) && Conserves(env, [OutPoint(1, 0)], a) && Placed(env, [x], txouts, a)
    ensures 7 in a && a[7].vout == 0 && txouts[0] == x
    ensures env.receive(7).Some? && txouts[1] == TxOut(env.dustSats, env.receive(7).value)
  {
    var points := [OutPoint(1, 0)];
    assert Recorded(env, points[0], 7) == 5;
    assert ConservesOf(env, points, a, 7);
    forall c | c in a ensures c == 7 { assert ConservesOf(env, points, a, c); }
    assert a.Keys == {7};
    assert |a| == |a.Keys| == 1;
    NumberIsPlace(env, [x], txouts, a, 7);
  }
}
