/**
A map from addresses to clients that follows an address field of the client states. A setter swaps
the field, loads it again, adds what it loaded to the map and deletes the old address, each in a
step of its own, and several setters may be at work at once.
*/
module AddressMap {
  import opened Common
  import opened Roaming

  /** What a setter still has to do. */
  datatype Todo = Load | Store(addr: Addr) | Delete

  datatype Setter = Setter(id: nat, gone: Option<Addr>, todo: Todo)

  /** The map, and the setters at work on it, by goroutine. */
  datatype Index = Index(byAddr: map<Addr, nat>, setters: map<nat, Setter>)

  /** The addresses that the field holds, by client. */
  type Field = map<nat, Addr>

  function Get(f: Field, id: nat): Option<Addr> {
    if id in f then Some(f[id]) else None
  }

  function Set(f: Field, id: nat, addr: Option<Addr>): Field {
    if addr.Some? then f[id := addr.value] else f - {id}
  }

  /** Goroutine `t` has just swapped `gone` out of the field of the client. */
  function Begin(ix: Index, t: nat, id: nat, gone: Option<Addr>, addr: Option<Addr>): Index {
    if addr.Some? then ix.(setters := ix.setters[t := Setter(id, gone, Load)])
    else if gone.Some? then ix.(setters := ix.setters[t := Setter(id, gone, Delete)])
    else ix
  }

  function AfterAdd(ix: Index, t: nat, st: Setter): Index {
    ix.(setters := if st.gone.Some? then ix.setters[t := st.(todo := Delete)] else ix.setters - {t})
  }

  function Advance(ix: Index, t: nat, f: Field): Index
    requires t in ix.setters
  {
    var st := ix.setters[t];
    match st.todo
    case Load =>
      if st.id in f then ix.(setters := ix.setters[t := st.(todo := Store(f[st.id]))]) else AfterAdd(ix, t, st)
    case Store(addr) => AfterAdd(ix.(byAddr := ix.byAddr[addr := st.id]), t, st)
    case Delete =>
      Index(if st.gone.Some? then ix.byAddr - {st.gone.value} else ix.byAddr, ix.setters - {t})
  }

  /** A setter is about to record the address of the client. */
  ghost predicate Pending(ix: Index, id: nat, addr: Addr) {
    exists t :: t in ix.setters && ix.setters[t].id == id
             && (ix.setters[t].todo == Load || ix.setters[t].todo == Store(addr))
  }

  ghost predicate Mapped(ix: Index, id: nat, addr: Addr) {
    addr in ix.byAddr && ix.byAddr[addr] == id
  }

  /** Every address of the field is in the map, or about to be. */
  ghost predicate Complete(ix: Index, f: Field) {
    forall id :: id in f ==> Mapped(ix, id, f[id]) || Pending(ix, id, f[id])
  }

  /** The entry is current: it is the client's address, and nobody is about to record it again. */
  ghost predicate Live(ix: Index, f: Field, addr: Addr) {
    addr in ix.byAddr && Get(f, ix.byAddr[addr]) == Some(addr) && !Pending(ix, ix.byAddr[addr], addr)
  }

  /** The next step of the setter deletes a live entry, or replaces it by another client's. */
  ghost predicate Wipes(ix: Index, f: Field, t: nat)
    requires t in ix.setters
  {
    var st := ix.setters[t];
    match st.todo
    case Load => false
    case Store(addr) => Live(ix, f, addr) && ix.byAddr[addr] != st.id
    case Delete => st.gone.Some? && Live(ix, f, st.gone.value)
  }

  /** Other setters are as far as they were. */
  lemma OtherPending(ix: Index, ix': Index, t: nat, id: nat, addr: Addr)
    requires forall u :: u != t ==> (u in ix.setters <==> u in ix'.setters)
    requires forall u :: u != t && u in ix.setters ==> ix.setters[u] == ix'.setters[u]
    requires Pending(ix, id, addr) && (t in ix.setters ==> ix.setters[t].id != id || ix.setters[t].todo.Delete?)
    ensures Pending(ix', id, addr)
  {
    var u :| u in ix.setters && ix.setters[u].id == id
          && (ix.setters[u].todo == Load || ix.setters[u].todo == Store(addr));
    assert u in ix'.setters && ix'.setters[u] == ix.setters[u];
  }

  lemma BeginKeepsComplete(ix: Index, f: Field, t: nat, id: nat, addr: Option<Addr>)
    requires Complete(ix, f) && t !in ix.setters
    ensures Complete(Begin(ix, t, id, Get(f, id), addr), Set(f, id, addr))
  {
    var ix', f' := Begin(ix, t, id, Get(f, id), addr), Set(f, id, addr);
    forall i | i in f'
      ensures Mapped(ix', i, f'[i]) || Pending(ix', i, f'[i])
    {
      if i == id {
        assert ix'.setters[t] == Setter(id, Get(f, id), Load);
      } else if Pending(ix, i, f[i]) {
        OtherPending(ix, ix', t, i, f[i]);
      }
    }
  }

  lemma LoadKeepsComplete(ix: Index, f: Field, t: nat)
    requires Complete(ix, f) && t in ix.setters && ix.setters[t].todo.Load?
    ensures Complete(Advance(ix, t, f), f)
  {
    var ix', st := Advance(ix, t, f), ix.setters[t];
    forall i | i in f
      ensures Mapped(ix', i, f[i]) || Pending(ix', i, f[i])
    {
      if i == st.id {
        assert ix'.setters[t] == st.(todo := Store(f[i]));
      } else if Pending(ix, i, f[i]) {
        OtherPending(ix, ix', t, i, f[i]);
      }
    }
  }

  /** Who is pending after the step, other than the setter's own client, was so before. */
  lemma StillPending(ix: Index, ix': Index, t: nat, id: nat, addr: Addr)
    requires forall u :: u != t ==> (u in ix.setters <==> u in ix'.setters)
    requires forall u :: u != t && u in ix.setters ==> ix.setters[u] == ix'.setters[u]
    requires t in ix'.setters ==> ix'.setters[t].todo.Delete?
    requires Pending(ix', id, addr)
    ensures Pending(ix, id, addr)
  {
    var u :| u in ix'.setters && ix'.setters[u].id == id
          && (ix'.setters[u].todo == Load || ix'.setters[u].todo == Store(addr));
    assert u in ix.setters && ix.setters[u] == ix'.setters[u];
  }

  lemma StoreKeepsCompleteIff(ix: Index, f: Field, t: nat)
    requires Complete(ix, f) && t in ix.setters && ix.setters[t].todo.Store?
    ensures Complete(Advance(ix, t, f), f) <==> !Wipes(ix, f, t)
  {
    var ix', st := Advance(ix, t, f), ix.setters[t];
    var addr := st.todo.addr;
    if Wipes(ix, f, t) {
      var c := ix.byAddr[addr];
      assert c in f && f[c] == addr && !Mapped(ix', c, addr);
      if Pending(ix', c, addr) {
        StillPending(ix, ix', t, c, addr);
      }
    } else {
      forall i | i in f
        ensures Mapped(ix', i, f[i]) || Pending(ix', i, f[i])
      {
        if i != st.id {
          if Pending(ix, i, f[i]) {
            OtherPending(ix, ix', t, i, f[i]);
          }
        } else if f[i] != addr && Pending(ix, i, f[i]) {
          OwnPending(ix, ix', t, i, f[i]);
        }
      }
    }
  }

  /** The client of the setter is pending through another setter. */
  lemma OwnPending(ix: Index, ix': Index, t: nat, id: nat, addr: Addr)
    requires forall u :: u != t && u in ix.setters ==> u in ix'.setters && ix.setters[u] == ix'.setters[u]
    requires t in ix.setters && ix.setters[t].todo.Store? && ix.setters[t].todo.addr != addr
    requires Pending(ix, id, addr)
    ensures Pending(ix', id, addr)
  {
    var u :| u in ix.setters && ix.setters[u].id == id
          && (ix.setters[u].todo == Load || ix.setters[u].todo == Store(addr));
    assert u in ix'.setters && ix'.setters[u] == ix.setters[u];
  }

  lemma DeleteKeepsCompleteIff(ix: Index, f: Field, t: nat)
    requires Complete(ix, f) && t in ix.setters && ix.setters[t].todo.Delete?
    ensures Complete(Advance(ix, t, f), f) <==> !Wipes(ix, f, t)
  {
    var ix', st := Advance(ix, t, f), ix.setters[t];
    if Wipes(ix, f, t) {
      var addr := st.gone.value;
      var c := ix.byAddr[addr];
      assert c in f && f[c] == addr && !Mapped(ix', c, addr);
      if Pending(ix', c, addr) {
        StillPending(ix, ix', t, c, addr);
      }
    } else {
      forall i | i in f
        ensures Mapped(ix', i, f[i]) || Pending(ix', i, f[i])
      {
        if Pending(ix, i, f[i]) {
          OtherPending(ix, ix', t, i, f[i]);
        } else {
          assert Mapped(ix, i, f[i]);
          assert st.gone == Some(f[i]) ==> Live(ix, f, f[i]);
        }
      }
    }
  }

  /** A map that misses nothing goes on missing nothing, exactly until a setter wipes out a live entry. */
  lemma AdvanceKeepsCompleteIff(ix: Index, f: Field, t: nat)
    requires Complete(ix, f) && t in ix.setters
    ensures Complete(Advance(ix, t, f), f) <==> !Wipes(ix, f, t)
  {
    match ix.setters[t].todo
    case Load => LoadKeepsComplete(ix, f, t);
    case Store(_) => StoreKeepsCompleteIff(ix, f, t);
    case Delete => DeleteKeepsCompleteIff(ix, f, t);
  }

  /** A setter that is not interrupted and replaces nothing adds its entry in two steps. */
  lemma AddsEntry(ix: Index, t: nat, id: nat, addr: Addr, f: Field)
    requires t !in ix.setters && Get(f, id) == Some(addr)
    ensures var ix1 := Begin(ix, t, id, None, Some(addr));
            && t in ix1.setters && t in Advance(ix1, t, f).setters
            && Advance(Advance(ix1, t, f), t, f) == Index(ix.byAddr[addr := id], ix.setters)
  {
    var ix2 := Advance(Begin(ix, t, id, None, Some(addr)), t, f);
    assert ix2.setters[t] == Setter(id, None, Store(addr));
    assert Advance(ix2, t, f).setters == ix.setters;
  }

  /** One that only clears the field deletes its entry in one. */
  lemma DeletesEntry(ix: Index, t: nat, id: nat, addr: Addr, f: Field)
    requires t !in ix.setters
    ensures var ix1 := Begin(ix, t, id, Some(addr), None);
            t in ix1.setters && Advance(ix1, t, f) == Index(ix.byAddr - {addr}, ix.setters)
  {
    assert Advance(Begin(ix, t, id, Some(addr), None), t, f).setters == ix.setters;
  }
}
