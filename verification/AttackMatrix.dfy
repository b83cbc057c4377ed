/** The ATT&CK matrix page: which engagements used each top-level technique, itself or through its sub-techniques. */
module AttackMatrix {
  import opened Wrappers

  datatype Mapping = Mapping(techniqueId: nat, engagementId: nat)

  datatype Technique = Technique(id: nat, isSub: bool, subs: seq<nat>)

  datatype Usage = Usage(name: string, direct: bool, viaSubs: seq<nat>)

  datatype Listed = Listed(engagementId: nat, usage: Usage)

  // ---------------------------------------------------------------- what the page should show

  predicate NoRepeats<T(==)>(s: seq<T>) {
    forall i, j :: 0 <= i < j < |s| ==> s[i] != s[j]
  }

  /** An engagement that exists has mapped a technique. */
  predicate Maps(mappings: seq<Mapping>, engagements: map<nat, string>, e: nat, t: nat) {
    e in engagements && Mapping(t, e) in mappings
  }

  /** The sub-techniques an engagement has mapped, in the order of the sub-technique list. */
  function MappedSubs(mappings: seq<Mapping>, engagements: map<nat, string>, subs: seq<nat>, e: nat): (r: seq<nat>)
    ensures forall s :: s in r <==> s in subs && Maps(mappings, engagements, e, s)
    ensures NoRepeats(subs) ==> NoRepeats(r)
  {
    if subs == [] then []
    else
      var init, last := subs[..|subs| - 1], subs[|subs| - 1];
      assert forall s :: s in subs <==> s in init || s == last;
      MappedSubs(mappings, engagements, init, e) + (if Maps(mappings, engagements, e, last) then [last] else [])
  }

  /** Python's order on strings. */
  predicate NameLeq(a: string, b: string) {
    a == [] || (b != [] && (a[0] < b[0] || (a[0] == b[0] && NameLeq(a[1..], b[1..]))))
  }

  predicate SortedByName(rows: seq<Listed>) {
    forall i, j :: 0 <= i < j < |rows| ==> NameLeq(rows[i].usage.name, rows[j].usage.name)
  }

  predicate ListsEngagement(rows: seq<Listed>, e: nat) {
    exists i :: 0 <= i < |rows| && rows[i].engagementId == e
  }

  predicate EachOnce(rows: seq<Listed>) {
    forall i, j :: 0 <= i < j < |rows| ==> rows[i].engagementId != rows[j].engagementId
  }

  /** An engagement has mapped a technique or one of its sub-techniques. */
  predicate Uses(mappings: seq<Mapping>, engagements: map<nat, string>, e: nat, t: Technique) {
    Maps(mappings, engagements, e, t.id) || exists s <- t.subs :: Maps(mappings, engagements, e, s)
  }

  /** A listed engagement's name, whether it mapped the technique itself, and through which sub-techniques. */
  predicate RowOf(mappings: seq<Mapping>, engagements: map<nat, string>, t: Technique, row: Listed) {
    && row.engagementId in engagements && row.usage.name == engagements[row.engagementId]
    && (row.usage.direct <==> Maps(mappings, engagements, row.engagementId, t.id))
    && row.usage.viaSubs == MappedSubs(mappings, engagements, t.subs, row.engagementId)
  }

  /** The brute-force definition of a technique's cell. */
  ghost predicate CellOf(mappings: seq<Mapping>, engagements: map<nat, string>, t: Technique, rows: seq<Listed>) {
    && SortedByName(rows) && EachOnce(rows)
    && (forall e :: ListsEngagement(rows, e) <==> Uses(mappings, engagements, e, t))
    && (forall row <- rows :: RowOf(mappings, engagements, t, row))
  }

  // ---------------------------------------------------------------- the index

  function Users(index: map<nat, seq<nat>>, t: nat): seq<nat> {
    if t in index then index[t] else []
  }

  ghost predicate Indexed(mappings: seq<Mapping>, engagements: map<nat, string>, index: map<nat, seq<nat>>) {
    forall t :: NoRepeats(Users(index, t)) && forall e :: e in Users(index, t) <==> Maps(mappings, engagements, e, t)
  }

  /** `engagements_by_technique`: for each technique its engagements, in the order the joined rows first name them. */
  method IndexMappings(mappings: seq<Mapping>, engagements: map<nat, string>) returns (index: map<nat, seq<nat>>)
    ensures Indexed(mappings, engagements, index)
  {
    index := map[];
    for i := 0 to |mappings|
      invariant Indexed(mappings[..i], engagements, index)
    {
      var Mapping(t, e) := mappings[i];
      ghost var before := index;
      assert mappings[..i + 1] == mappings[..i] + [mappings[i]];
      if e in engagements && e !in Users(index, t) {
        index := index[t := Users(index, t) + [e]];
      }
      forall x ensures NoRepeats(Users(index, x))
                  && forall y :: y in Users(index, x) <==> Maps(mappings[..i + 1], engagements, y, x)
      {
        assert NoRepeats(Users(before, x));
      }
    }
    assert mappings[..|mappings|] == mappings;
  }

  // ---------------------------------------------------------------- one cell

  /** The sub-techniques an engagement uses, by the index. */
  function UsedSubs(index: map<nat, seq<nat>>, subs: seq<nat>, e: nat): seq<nat> {
    if subs == [] then []
    else UsedSubs(index, subs[..|subs| - 1], e) + (if e in Users(index, subs[|subs| - 1]) then [subs[|subs| - 1]] else [])
  }

  /** An engagement's entry once the technique itself, some sub-techniques, and some users of the next one are done. */
  ghost predicate TalliedFor(index: map<nat, seq<nat>>, engagements: map<nat, string>, t: nat, done: seq<nat>,
                             next: nat, users: seq<nat>, usage: map<nat, Usage>, e: nat)
  {
    && (e in usage <==> e in Users(index, t) || UsedSubs(index, done, e) != [] || e in users)
    && (e in usage ==>
          e in engagements
          && usage[e] == Usage(engagements[e], e in Users(index, t),
                               UsedSubs(index, done, e) + (if e in users then [next] else [])))
  }

  ghost predicate Tallied(index: map<nat, seq<nat>>, engagements: map<nat, string>, t: nat, done: seq<nat>,
                          next: nat, users: seq<nat>, order: seq<nat>, usage: map<nat, Usage>)
  {
    && NoRepeats(order) && (forall e :: e in order <==> e in usage)
    && (forall e :: TalliedFor(index, engagements, t, done, next, users, usage, e))
  }

  ghost predicate Known(index: map<nat, seq<nat>>, engagements: map<nat, string>) {
    forall t :: NoRepeats(Users(index, t)) && forall e <- Users(index, t) :: e in engagements
  }

  method TallyDirect(index: map<nat, seq<nat>>, engagements: map<nat, string>, t: nat)
    returns (order: seq<nat>, usage: map<nat, Usage>)
    requires Known(index, engagements)
    ensures Tallied(index, engagements, t, [], 0, [], order, usage)
  {
    order, usage := [], map[];
    var users := Users(index, t);
    for i := 0 to |users|
      invariant order == users[..i]
      invariant forall e :: e in usage <==> e in users[..i]
      invariant forall e <- usage :: e in engagements && usage[e] == Usage(engagements[e], true, [])
    {
      assert users[..i + 1] == users[..i] + [users[i]];
      usage := usage[users[i] := Usage(engagements[users[i]], true, [])];
      order := order + [users[i]];
    }
    assert order == users;
  }

  method TallySub(index: map<nat, seq<nat>>, engagements: map<nat, string>, t: nat, ghost done: seq<nat>, sub: nat,
                  order0: seq<nat>, usage0: map<nat, Usage>)
    returns (order: seq<nat>, usage: map<nat, Usage>)
    requires Known(index, engagements)
    requires Tallied(index, engagements, t, done, sub, [], order0, usage0)
    ensures Tallied(index, engagements, t, done + [sub], 0, [], order, usage)
  {
    hide UsedSubs, Users, TalliedFor;
    order, usage := order0, usage0;
    var users := Users(index, sub);
    for i := 0 to |users|
      invariant Tallied(index, engagements, t, done, sub, users[..i], order, usage)
    {
      var e := users[i];
      assert users[..i + 1] == users[..i] + [e];
      ghost var before := usage;
      if e !in usage {
        usage := usage[e := Usage(engagements[e], false, [])];
        order := order + [e];
      }
      usage := usage[e := usage[e].(viaSubs := usage[e].viaSubs + [sub])];
      ghost var entry := if e in before then before[e] else Usage(engagements[e], false, []);
      assert usage == before[e := entry.(viaSubs := entry.viaSubs + [sub])];
      ghost var now, counted := usage, users[..i + 1];
      forall y ensures TalliedFor(index, engagements, t, done, sub, counted, now, y) {
        TallyOne(index, engagements, t, done, sub, users, i, before, y);
      }
    }
    assert users[..|users|] == users;
    forall e ensures TalliedFor(index, engagements, t, done + [sub], 0, [], usage, e) {
      UsedSubsSnoc(index, done, sub, e);
      TallyNext(index, engagements, t, done, sub, usage, e);
    }
  }

  /** One user of a sub-technique more. */
  lemma TallyOne(index: map<nat, seq<nat>>, engagements: map<nat, string>, t: nat, done: seq<nat>, sub: nat,
                 users: seq<nat>, i: nat, usage: map<nat, Usage>, y: nat)
    requires i < |users| && NoRepeats(users) && users[i] in engagements
    requires forall k :: TalliedFor(index, engagements, t, done, sub, users[..i], usage, k)
    ensures
      var e := users[i];
      var entry := if e in usage then usage[e] else Usage(engagements[e], false, []);
      TalliedFor(index, engagements, t, done, sub, users[..i] + [e],
                 usage[e := entry.(viaSubs := entry.viaSubs + [sub])], y)
  {
    hide UsedSubs, Users;
    assert TalliedFor(index, engagements, t, done, sub, users[..i], usage, y);
    assert users[i] !in users[..i];
  }

  lemma TallyNext(index: map<nat, seq<nat>>, engagements: map<nat, string>, t: nat, done: seq<nat>, sub: nat,
                  usage: map<nat, Usage>, e: nat)
    requires TalliedFor(index, engagements, t, done, sub, Users(index, sub), usage, e)
    requires UsedSubs(index, done + [sub], e) == UsedSubs(index, done, e) + (if e in Users(index, sub) then [sub] else [])
    ensures TalliedFor(index, engagements, t, done + [sub], 0, [], usage, e)
  {
    hide UsedSubs, Users;
  }

  lemma UsedSubsSnoc(index: map<nat, seq<nat>>, done: seq<nat>, sub: nat, e: nat)
    ensures UsedSubs(index, done + [sub], e) == UsedSubs(index, done, e) + (if e in Users(index, sub) then [sub] else [])
  {
    assert (done + [sub])[..|done + [sub]| - 1] == done;
  }

  // ---------------------------------------------------------------- sorting

  /** `sorted(..., key=name)`: stable, so equal names keep their order. */
  function Insert(row: Listed, rows: seq<Listed>): seq<Listed> {
    if rows == [] then [row]
    else if !NameLeq(rows[0].usage.name, row.usage.name) then [row] + rows
    else [rows[0]] + Insert(row, rows[1..])
  }

  function Sort(rows: seq<Listed>): seq<Listed> {
    if rows == [] then [] else Insert(rows[|rows| - 1], Sort(rows[..|rows| - 1]))
  }

  /** The order of names: one is the start of the other, or the first character that differs decides by its code. */
  lemma {:induction false} NameLeqIs(a: string, b: string)
    ensures NameLeq(a, b) <==>
      a <= b || exists i :: 0 <= i < |a| && i < |b| && a[..i] == b[..i] && a[i] as int < b[i] as int
  {
    if a != [] && b != [] && a[0] == b[0] {
      NameLeqIs(a[1..], b[1..]);
      if i :| 0 <= i < |a[1..]| && i < |b[1..]| && a[1..][..i] == b[1..][..i] && a[1..][i] as int < b[1..][i] as int {
        assert a[..i + 1] == [a[0]] + a[1..][..i] && b[..i + 1] == [b[0]] + b[1..][..i];
        assert a[i + 1] as int < b[i + 1] as int;
      }
      if i :| 0 <= i < |a| && i < |b| && a[..i] == b[..i] && a[i] as int < b[i] as int {
        assert a[1..][..i - 1] == a[..i][1..] && b[1..][..i - 1] == b[..i][1..];
        assert a[1..][i - 1] as int < b[1..][i - 1] as int;
      }
    } else if a != [] && b != [] {
      assert a[..0] == b[..0];
      if i :| 0 <= i < |a| && i < |b| && a[..i] == b[..i] && a[i] as int < b[i] as int {
        assert i > 0 ==> a[..i][0] == b[..i][0];
      }
    }
  }

  lemma {:induction false} NameLeqTotal(a: string, b: string)
    ensures NameLeq(a, b) || NameLeq(b, a)
  {
    if a != [] && b != [] {
      NameLeqTotal(a[1..], b[1..]);
    }
  }

  lemma {:induction false} NameLeqTransitive(a: string, b: string, c: string)
    requires NameLeq(a, b) && NameLeq(b, c)
    ensures NameLeq(a, c)
  {
    if a != [] && a[0] == b[0] == c[0] {
      NameLeqTransitive(a[1..], b[1..], c[1..]);
    }
  }

  lemma {:induction false} InsertIs(row: Listed, rows: seq<Listed>)
    ensures multiset(Insert(row, rows)) == multiset(rows) + multiset{row}
  {
    if rows != [] && NameLeq(rows[0].usage.name, row.usage.name) {
      InsertIs(row, rows[1..]);
      assert rows == [rows[0]] + rows[1..];
    }
  }

  lemma {:induction false} InsertSorts(row: Listed, rows: seq<Listed>)
    requires SortedByName(rows)
    ensures SortedByName(Insert(row, rows))
    ensures forall r <- Insert(row, rows) :: r == row || r in rows
  {
    hide NameLeq;
    var r := Insert(row, rows);
    if rows == [] {
    } else if !NameLeq(rows[0].usage.name, row.usage.name) {
      NameLeqTotal(rows[0].usage.name, row.usage.name);
      forall j | 0 <= j < |rows| ensures NameLeq(row.usage.name, rows[j].usage.name) {
        if j > 0 {
          NameLeqTransitive(row.usage.name, rows[0].usage.name, rows[j].usage.name);
        }
      }
    } else {
      InsertSorts(row, rows[1..]);
      var rest := Insert(row, rows[1..]);
      forall j | 0 <= j < |rest| ensures NameLeq(rows[0].usage.name, rest[j].usage.name) {
        assert rest[j] in rest;
      }
    }
  }

  lemma {:induction false} SortIs(rows: seq<Listed>)
    ensures SortedByName(Sort(rows)) && multiset(Sort(rows)) == multiset(rows)
  {
    if rows != [] {
      var init, last := rows[..|rows| - 1], rows[|rows| - 1];
      SortIs(init);
      InsertIs(last, Sort(init));
      InsertSorts(last, Sort(init));
      assert rows == init + [last];
    }
  }

  /** The rows of one name, in their order. */
  function Named(rows: seq<Listed>, name: string): seq<Listed> {
    if rows == [] then [] else (if rows[0].usage.name == name then [rows[0]] else []) + Named(rows[1..], name)
  }

  lemma {:induction false} NamedConcat(a: seq<Listed>, b: seq<Listed>, name: string)
    ensures Named(a + b, name) == Named(a, name) + Named(b, name)
  {
    if a == [] {
      assert a + b == b;
    } else {
      assert (a + b)[0] == a[0] && (a + b)[1..] == a[1..] + b;
      NamedConcat(a[1..], b, name);
    }
  }

  lemma {:induction false} NoneNamed(rows: seq<Listed>, name: string)
    requires forall r <- rows :: r.usage.name != name
    ensures Named(rows, name) == []
  {
    if rows != [] {
      NoneNamed(rows[1..], name);
    }
  }

  lemma AllLater(rows: seq<Listed>, name: string)
    requires SortedByName(rows) && rows != [] && !NameLeq(rows[0].usage.name, name)
    ensures forall r <- rows :: r.usage.name != name
  {
    hide NameLeq;
    forall j | 0 <= j < |rows|
      ensures rows[j].usage.name != name
    {
      if j > 0 {
        assert NameLeq(rows[0].usage.name, rows[j].usage.name);
      } else {
        NameLeqTotal(name, name);
      }
    }
  }

  lemma {:induction false} InsertIsStable(row: Listed, rows: seq<Listed>, name: string)
    requires SortedByName(rows)
    ensures Named(Insert(row, rows), name) == Named(rows, name) + (if row.usage.name == name then [row] else [])
  {
    hide NameLeq, Insert;
    OneInserted(row, rows);
    if rows == [] {
      assert [row][1..] == [];
    } else if !NameLeq(rows[0].usage.name, row.usage.name) {
      assert ([row] + rows)[1..] == rows;
      if row.usage.name == name {
        AllLater(rows, name);
        NoneNamed(rows, name);
      }
    } else {
      InsertIsStable(row, rows[1..], name);
      assert ([rows[0]] + Insert(row, rows[1..]))[1..] == Insert(row, rows[1..]);
    }
  }

  lemma OneInserted(row: Listed, rows: seq<Listed>)
    ensures Insert(row, rows) ==
      if rows == [] then [row]
      else if !NameLeq(rows[0].usage.name, row.usage.name) then [row] + rows
      else [rows[0]] + Insert(row, rows[1..])
  {
    hide NameLeq;
  }

  /** Rows of the same name keep their order. */
  lemma {:induction false} SortIsStable(rows: seq<Listed>, name: string)
    ensures Named(Sort(rows), name) == Named(rows, name)
  {
    if rows != [] {
      var init, last := rows[..|rows| - 1], rows[|rows| - 1];
      SortIsStable(init, name);
      SortIs(init);
      InsertIsStable(last, Sort(init), name);
      NamedConcat(init, [last], name);
      assert [last][1..] == [];
      assert rows == init + [last];
    }
  }

  lemma SameRow(a: seq<Listed>, x: Listed, y: Listed)
    requires EachOnce(a) && x in a && y in a && x.engagementId == y.engagementId
    ensures x == y
  {
  }

  lemma SameCountsOnce(a: seq<Listed>, b: seq<Listed>)
    requires multiset(a) == multiset(b) && EachOnce(a)
    ensures EachOnce(b)
    ensures forall r :: r in a <==> r in b
    ensures forall e :: ListsEngagement(a, e) <==> ListsEngagement(b, e)
  {
    forall r ensures r in a <==> r in b {
      assert r in a <==> r in multiset(a);
      assert r in b <==> r in multiset(b);
    }
    forall i, j | 0 <= i < j < |b| ensures b[i].engagementId != b[j].engagementId {
      if b[i].engagementId == b[j].engagementId {
        SameRow(a, b[i], b[j]);
        Twice(b, i, j);
        AtMostOnce(a, b[i]);
        assert false;
      }
    }
    forall e ensures ListsEngagement(a, e) <==> ListsEngagement(b, e) {
      if ListsEngagement(a, e) {
        var i :| 0 <= i < |a| && a[i].engagementId == e;
        assert a[i] in b;
      }
      if ListsEngagement(b, e) {
        var i :| 0 <= i < |b| && b[i].engagementId == e;
        assert b[i] in a;
      }
    }
  }

  lemma Twice(b: seq<Listed>, i: nat, j: nat)
    requires i < j < |b| && b[i] == b[j]
    ensures multiset(b)[b[i]] >= 2
  {
    assert b == b[..j] + ([b[j]] + b[j + 1..]);
    assert b[i] in b[..j];
    assert multiset(b) == multiset(b[..j]) + (multiset{b[j]} + multiset(b[j + 1..]));
  }

  lemma {:induction false} AtMostOnce(a: seq<Listed>, r: Listed)
    requires EachOnce(a)
    ensures multiset(a)[r] <= 1
  {
    if a != [] {
      AtMostOnce(a[1..], r);
      assert a == [a[0]] + a[1..];
      if r == a[0] {
        assert forall j :: 0 < j < |a| ==> a[j] != r;
        assert r !in a[1..];
      }
    }
  }

  // ---------------------------------------------------------------- the page

  method Cell(index: map<nat, seq<nat>>, engagements: map<nat, string>, t: Technique, ghost mappings: seq<Mapping>)
    returns (rows: seq<Listed>)
    requires Indexed(mappings, engagements, index)
    ensures CellOf(mappings, engagements, t, rows)
  {
    hide UsedSubs, CellOf, Sort;
    var order, usage := TallyDirect(index, engagements, t.id);
    for k := 0 to |t.subs|
      invariant Tallied(index, engagements, t.id, t.subs[..k], 0, [], order, usage)
    {
      assert t.subs[..k + 1] == t.subs[..k] + [t.subs[k]];
      Retargeted(index, engagements, t.id, t.subs[..k], 0, t.subs[k], order, usage);
      order, usage := TallySub(index, engagements, t.id, t.subs[..k], t.subs[k], order, usage);
    }
    assert t.subs[..|t.subs|] == t.subs;
    assert forall e <- order :: e in usage;
    var items := seq(|order|, i requires 0 <= i < |order| => Listed(order[i], usage[order[i]]));
    rows := Sort(items);
    TalliedIsCell(mappings, index, engagements, t, order, usage, items);
  }

  lemma Retargeted(index: map<nat, seq<nat>>, engagements: map<nat, string>, t: nat, done: seq<nat>, a: nat, b: nat,
                   order: seq<nat>, usage: map<nat, Usage>)
    requires Tallied(index, engagements, t, done, a, [], order, usage)
    ensures Tallied(index, engagements, t, done, b, [], order, usage)
  {
    hide UsedSubs, Users;
    forall e ensures TalliedFor(index, engagements, t, done, b, [], usage, e) {
      assert TalliedFor(index, engagements, t, done, a, [], usage, e);
    }
  }

  lemma {:induction false} UsedAreMapped(mappings: seq<Mapping>, engagements: map<nat, string>, index: map<nat, seq<nat>>,
                                         subs: seq<nat>, e: nat)
    requires Indexed(mappings, engagements, index)
    ensures UsedSubs(index, subs, e) == MappedSubs(mappings, engagements, subs, e)
  {
    if subs != [] {
      UsedAreMapped(mappings, engagements, index, subs[..|subs| - 1], e);
    }
  }

  lemma TalliedRow(mappings: seq<Mapping>, index: map<nat, seq<nat>>, engagements: map<nat, string>, t: Technique,
                   usage: map<nat, Usage>, e: nat)
    requires Indexed(mappings, engagements, index)
    requires TalliedFor(index, engagements, t.id, t.subs, 0, [], usage, e)
    ensures e in usage <==> Uses(mappings, engagements, e, t)
    ensures e in usage ==> RowOf(mappings, engagements, t, Listed(e, usage[e]))
  {
    hide UsedSubs, MappedSubs, Users;
    UsedAreMapped(mappings, engagements, index, t.subs, e);
    SomeMapped(mappings, engagements, t.subs, e);
  }

  lemma TalliedIsCell(mappings: seq<Mapping>, index: map<nat, seq<nat>>, engagements: map<nat, string>, t: Technique,
                      order: seq<nat>, usage: map<nat, Usage>, items: seq<Listed>)
    requires Indexed(mappings, engagements, index)
    requires Tallied(index, engagements, t.id, t.subs, 0, [], order, usage)
    requires |items| == |order| && forall i :: 0 <= i < |order| ==> items[i] == Listed(order[i], usage[order[i]])
    ensures CellOf(mappings, engagements, t, Sort(items))
  {
    hide Sort, SortedByName, TalliedFor, Indexed, Uses, RowOf;
    SortIs(items);
    SameCountsOnce(items, Sort(items));
    forall e
      ensures e in usage <==> Uses(mappings, engagements, e, t)
      ensures e in usage ==> RowOf(mappings, engagements, t, Listed(e, usage[e]))
    {
      TalliedRow(mappings, index, engagements, t, usage, e);
    }
    forall e ensures ListsEngagement(items, e) <==> e in usage {
      if e in usage {
        var i :| 0 <= i < |order| && order[i] == e;
        assert items[i].engagementId == e;
      }
    }
    forall row | row in Sort(items) ensures RowOf(mappings, engagements, t, row) {
      assert row in items;
    }
  }

  lemma SomeMapped(mappings: seq<Mapping>, engagements: map<nat, string>, subs: seq<nat>, e: nat)
    ensures MappedSubs(mappings, engagements, subs, e) != [] <==> exists s <- subs :: Maps(mappings, engagements, e, s)
  {
    var r := MappedSubs(mappings, engagements, subs, e);
    if r != [] {
      assert r[0] in r;
    }
  }

  /** `build_matrix_tactics`: a cell for every top-level technique under some tactic, and for no other. */
  method BuildMatrix(tactics: seq<seq<Technique>>, mappings: seq<Mapping>, engagements: map<nat, string>)
    returns (cells: map<Technique, seq<Listed>>)
    ensures forall t :: t in cells <==> !t.isSub && exists tactic <- tactics :: t in tactic
    ensures forall t <- cells :: CellOf(mappings, engagements, t, cells[t])
  {
    hide Indexed, CellOf;
    var index := IndexMappings(mappings, engagements);
    cells := map[];
    for i := 0 to |tactics|
      invariant forall t :: t in cells <==> !t.isSub && exists tactic <- tactics[..i] :: t in tactic
      invariant forall t <- cells :: CellOf(mappings, engagements, t, cells[t])
    {
      var tactic := tactics[i];
      ghost var before := cells;
      for j := 0 to |tactic|
        invariant forall t :: t in cells <==> t in before || (!t.isSub && t in tactic[..j])
        invariant forall t <- cells :: CellOf(mappings, engagements, t, cells[t])
      {
        assert tactic[..j + 1] == tactic[..j] + [tactic[j]];
        if !tactic[j].isSub {
          var rows := Cell(index, engagements, tactic[j], mappings);
          cells := cells[tactic[j] := rows];
        }
      }
      assert tactic[..|tactic|] == tactic;
      assert tactics[..i + 1] == tactics[..i] + [tactic];
    }
    assert tactics[..|tactics|] == tactics;
  }

  /** A cell is highlighted exactly when some engagement mapped its technique or one of its sub-techniques. */
  lemma HighlightedIff(mappings: seq<Mapping>, engagements: map<nat, string>, t: Technique, rows: seq<Listed>)
    requires CellOf(mappings, engagements, t, rows)
    ensures rows != [] <==>
            exists m <- mappings :: m.engagementId in engagements && (m.techniqueId == t.id || m.techniqueId in t.subs)
  {
    hide MappedSubs;
    if rows != [] {
      var e := rows[0].engagementId;
      assert ListsEngagement(rows, e);
      if Maps(mappings, engagements, e, t.id) {
        assert Mapping(t.id, e) in mappings;
      } else {
        var s :| s in t.subs && Maps(mappings, engagements, e, s);
        assert Mapping(s, e) in mappings;
      }
    }
    if m :| m in mappings && m.engagementId in engagements && (m.techniqueId == t.id || m.techniqueId in t.subs) {
      assert Maps(mappings, engagements, m.engagementId, m.techniqueId);
      assert ListsEngagement(rows, m.engagementId);
    }
  }
}
