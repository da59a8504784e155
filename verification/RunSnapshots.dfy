/** What becomes of the states that runs of the engine reach when they are saved and restored. */
module RunSnapshots {
  import opened Orders
  import opened Books
  import opened Matching
  import opened Trading
  import opened Agreement
  import opened MarketInvariant
  import opened ExchangeRuns
  import opened Drift
  import S = Snapshots
  import SnapshotObject
  import Triggers

  lemma SideHome(s: Slice, nextId: nat, d: TriggerDirection)
    requires SliceOk(s, nextId)
    ensures forall o :: o in Triggers.Flat(Triggers.Side(s.triggers, d)) ==> o.market == s.id
  {
    forall o | o in Triggers.Flat(Triggers.Side(s.triggers, d)) ensures o.market == s.id {
      var price := Triggers.FlatAt(Triggers.Side(s.triggers, d), o);
      Triggers.StoredAt(s.triggers, d, price, o);
      assert WaitingOk(s.id, nextId, o);
    }
  }

  lemma SavableSlice(s: Slice, nextId: nat)
    requires SliceOk(s, nextId) && Loose(s)
    ensures S.Sound(s) && SnapshotObject.AtHome(s)
  {
    SideHome(s, nextId, Above);
    SideHome(s, nextId, Below);
  }

  /** What comes back is uncrossed exactly when no two records cross, whether or not they were on the book. */
  lemma BackUncrossedIff(s: Slice, r: Slice)
    requires S.ComesBack(s, r)
    ensures Uncrossed(r.book) <==>
      forall i, j :: i in s.orders && j in s.orders && s.orders[i].side == Buy && s.orders[j].side == Sell ==>
        s.orders[i].price < s.orders[j].price
  {
    forall i | i in s.orders ensures InBook(r.book, s.orders[i]) && s.orders[i].id == i { GetFinds(r.book, i); }
    if Uncrossed(r.book) {
      forall i, j | i in s.orders && j in s.orders && s.orders[i].side == Buy && s.orders[j].side == Sell
        ensures s.orders[i].price < s.orders[j].price
      {
        assert s.orders[i] in r.book.bids && s.orders[j] in r.book.asks;
      }
    }
    forall x, y | x in r.book.bids && y in r.book.asks
      ensures x.side == Buy && y.side == Sell
      ensures x.id in s.orders && s.orders[x.id] == x && y.id in s.orders && s.orders[y.id] == y
    {
      assert InBook(r.book, x) && InBook(r.book, y);
    }
  }

  /** The engine state after a run, with whatever balances, margin modes and insurance fund. */
  ghost function StateOf(e: Exchange, accounts: map<Account, int>, modes: map<Account, bool>, fund: int): S.EngineState {
    S.EngineState(e.slices, accounts, modes, fund, e.nextId)
  }

  lemma RunSavable(acts: seq<Action>, m: MarketId)
    requires Configured(NEW_EXCHANGE) && AllAllowed(NEW_EXCHANGE, acts) && m in Run(NEW_EXCHANGE, acts).slices
    ensures var s := Run(NEW_EXCHANGE, acts).slices[m]; s.id == m && S.Sound(s) && SnapshotObject.AtHome(s)
  {
    var e := Run(NEW_EXCHANGE, acts);
    RunKeeps(NEW_EXCHANGE, acts);
    RunLoose(NEW_EXCHANGE, acts);
    assert Loose(e.slices[m]) && SliceOk(e.slices[m], e.nextId);
    SavableSlice(e.slices[m], e.nextId);
  }

  /** After every run from an empty exchange, whatever its orders met, any snapshot of the state restores it: all but
      the books as it was, and each book to exactly the records, which is what it was exactly when it agreed with
      them. After a tidy run every book is what it was. */
  lemma RunRestores(acts: seq<Action>, accounts: map<Account, int>, modes: map<Account, bool>, fund: int, snap: S.Snapshot)
    requires Configured(NEW_EXCHANGE) && AllAllowed(NEW_EXCHANGE, acts)
    requires SnapshotObject.CapturesAll(StateOf(Run(NEW_EXCHANGE, acts), accounts, modes, fund), snap)
    ensures var e, r := Run(NEW_EXCHANGE, acts), SnapshotObject.Rebuilt(snap);
      && r.accounts == accounts && r.modes == modes && r.fund == fund && r.nextId == e.nextId
      && (forall m :: S.ComesBack(S.SliceAt(e.slices, m), S.SliceAt(r.slices, m)))
      && (AllTidy(NEW_EXCHANGE, acts) ==> forall m :: S.SliceAt(r.slices, m).book == S.SliceAt(e.slices, m).book)
  {
    var e, r := Run(NEW_EXCHANGE, acts), SnapshotObject.Rebuilt(snap);
    var st := StateOf(e, accounts, modes, fund);
    forall m | m in st.slices ensures st.slices[m].id == m && S.Sound(st.slices[m]) { RunSavable(acts, m); }
    SnapshotObject.RestoreBack(st, snap);
    if AllTidy(NEW_EXCHANGE, acts) {
      RunAgrees(NEW_EXCHANGE, acts);
      forall m ensures S.SliceAt(r.slices, m).book == S.SliceAt(e.slices, m).book {
        assert S.ComesBack(S.SliceAt(e.slices, m), S.SliceAt(r.slices, m));
        assert m in e.slices ==> Agree(e.slices[m]);
      }
    }
  }

  lemma RunRestoresAt(acts: seq<Action>, accounts: map<Account, int>, modes: map<Account, bool>, fund: int,
                      snap: S.Snapshot, m: MarketId)
    requires Configured(NEW_EXCHANGE) && AllAllowed(NEW_EXCHANGE, acts) && m in Run(NEW_EXCHANGE, acts).slices
    requires SnapshotObject.CapturesAll(StateOf(Run(NEW_EXCHANGE, acts), accounts, modes, fund), snap)
    ensures S.ComesBack(Run(NEW_EXCHANGE, acts).slices[m], S.SliceAt(SnapshotObject.Rebuilt(snap).slices, m))
  {
    RunRestores(acts, accounts, modes, fund, snap);
  }
}
