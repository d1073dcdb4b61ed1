/** What the replies of the mapped DNS promise: they parse as DNS messages, and the
    addresses in them can be looked up again. */
module DnsTheorems {
  import opened Basics
  import opened KeyOrder
  import opened Address
  import opened Lru
  import opened DnsMessage

  // ---------- answer, then look up ----------

  ghost function AnswerNames(answers: seq<Answer>): seq<Name> {
    seq(|answers|, i requires 0 <= i < |answers| => answers[i].name)
  }

  /** Looking up the address in the answer gives the name that was asked for. */
  predicate Resolves(s: Cache, net: Word, mask: Word, a: Answer) {
    LookupName(s, HostIndex(mask, Mint(net, a.idx))) == Some(a.name)
  }

  /** The most recently touched names are exactly those in `t`. */
  ghost predicate Recent(s: Cache, t: set<Name>) {
    exists k: nat :: k <= |s| && NameSet(Names(s)[k..]) == t
  }

  lemma {:induction false} TouchEntries(s: Cache, k: nat)
    requires k < |s|
    ensures forall e :: e in Touch(s, k) <==> e in s
  {
    var t := Touch(s, k);
    forall e | e in s ensures e in t {
      var i :| 0 <= i < |s| && s[i] == e;
      assert t[if i < k then i else if i == k then |s| - 1 else i - 1] == e;
    }
  }

  /** A found name becomes the most recent one, and no recent entry is lost while the
      recent names fit into the cache. */
  lemma {:induction false} FindRecent(s: Cache, max: nat, x: Name, t: set<Name>)
    requires max >= 1 && WellFormed(s, max) && Recent(s, t) && |t + {x}| <= max
    ensures Recent(Find(s, max, x, true), t + {x})
    ensures Entry(x, FindIdx(s, max, x, true)) in Find(s, max, x, true)
    ensures forall e :: e in s && e.name in t ==> e in Find(s, max, x, true)
  {
    var k: nat :| k <= |s| && NameSet(Names(s)[k..]) == t;
    var j, s' := Position(s, x), Find(s, max, x, true);
    FindEntry(s, max, x, true);
    FindIdxNat(s, max, x);
    if j < |s| {
      TouchEntries(s, j);
      TouchRecent(s, j, k);
    } else {
      AddSuffix(s, max, x, k);
    }
  }

  lemma {:induction false} TouchRecent(s: Cache, j: nat, k: nat)
    requires j < |s| && k <= |s|
    ensures Recent(Touch(s, j), NameSet(Names(s)[k..]) + {s[j].name})
  {
    TouchSuffix(s, j, k);
    var k' := if j < k then k - 1 else k;
    assert k' <= |Touch(s, j)| && NameSet(Names(Touch(s, j))[k'..]) == NameSet(Names(s)[k..]) + {s[j].name};
  }

  lemma {:induction false} TouchSuffix(s: Cache, j: nat, k: nat)
    requires j < |s| && k <= |s|
    ensures NameSet(Names(Touch(s, j))[if j < k then k - 1 else k..]) == NameSet(Names(s)[k..]) + {s[j].name}
  {
    NamesTouch(s, j);
    var ns, x := Names(s), s[j].name;
    var a := ns[k..];
    NameSetOne(x);
    if j < k {
      assert (ns[..j] + ns[j + 1..] + [x])[k - 1..] == a + [x];
      NameSetAppend(a, [x]);
    } else {
      var i := j - k;
      assert (ns[..j] + ns[j + 1..] + [x])[k..] == a[..i] + a[i + 1..] + [x];
      assert a == a[..i] + [x] + a[i + 1..];
      NameSetAppend(a[..i] + a[i + 1..], [x]);
      NameSetAppend(a[..i], a[i + 1..]);
      NameSetAppend(a[..i] + [x], a[i + 1..]);
      NameSetAppend(a[..i], [x]);
    }
  }

  lemma {:induction false} AddSuffix(s: Cache, max: nat, x: Name, k: nat)
    requires max >= 1 && WellFormed(s, max) && k <= |s| && Position(s, x) == |s|
    requires |NameSet(Names(s)[k..]) + {x}| <= max
    ensures Recent(Find(s, max, x, true), NameSet(Names(s)[k..]) + {x})
    ensures forall e :: e in s && e.name in NameSet(Names(s)[k..]) ==> e in Find(s, max, x, true)
  {
    var s', a := Find(s, max, x, true), Names(s)[k..];
    NameSetOne(x);
    NameSetAppend(a, [x]);
    AddNames(s, x);
    SnocFrom(Names(s), x, k);
    if |s| < max {
      assert NameSet(Names(s')[k..]) == NameSet(a) + {x};
    } else {
      FullMeansOlder(s, max, x, k);
      assert Names(s') == Names(s)[1..] + [x];
      SnocFrom(Names(s)[1..], x, k - 1);
      assert NameSet(Names(s')[k - 1..]) == NameSet(a) + {x};
      EvictKeeps(s, max, x, k);
    }
  }

  lemma {:induction false} FullMeansOlder(s: Cache, max: nat, x: Name, k: nat)
    requires WellFormed(s, max) && k <= |s| == max && Position(s, x) == |s|
    requires |NameSet(Names(s)[k..]) + {x}| <= max
    ensures k >= 1
  {
    var a := Names(s)[k..];
    assert x !in NameSet(a);
    NameSetSize(a);
  }

  /** Eviction takes the oldest entry, so none from position `k` on. */
  lemma {:induction false} EvictKeeps(s: Cache, max: nat, x: Name, k: nat)
    requires WellFormed(s, max) && 1 <= k <= |s|
    ensures forall e :: e in s && e.name in NameSet(Names(s)[k..]) ==> e in s[1..]
  {
    var a := Names(s)[k..];
    forall e | e in s && e.name in NameSet(a) ensures e in s[1..] {
      var i :| 0 <= i < |s| && s[i] == e;
      var m :| 0 <= m < |a| && a[m] == e.name;
      assert s[k + m].name == s[i].name;
      assert s[1..][i - 1] == e;
    }
  }

  /** As long as the names asked for fit into the cache, every answer's entry is in it
      when all questions are done. */
  lemma {:induction false} ServeKeeps(s: Cache, max: nat, xs: seq<Question>, alloc: seq<bool>)
    requires max >= 1 && WellFormed(s, max) && |alloc| >= |xs|
    requires forall i :: 0 <= i < |xs| ==> alloc[i]
    requires |NameSet(AnswerNames(Serve(s, max, xs, alloc).answers))| <= max
    ensures var sv := Serve(s, max, xs, alloc);
      && WellFormed(sv.cache, max) && Recent(sv.cache, NameSet(AnswerNames(sv.answers)))
      && forall i :: 0 <= i < |sv.answers| ==> Entry(sv.answers[i].name, sv.answers[i].idx) in sv.cache
    decreases |xs|
  {
    if xs == [] {
      assert NameSet(Names(s)[|s|..]) == NameSet(AnswerNames([]));
    } else {
      var n := |xs| - 1;
      var p, x := Serve(s, max, xs[..n], alloc), xs[n];
      var sv := Serve(s, max, xs, alloc);
      var t := NameSet(AnswerNames(p.answers));
      if x.isA {
        FindIdxNat(p.cache, max, x.name);
        var a := Answer(x.off, FindIdx(p.cache, max, x.name, true), x.name);
        assert sv.answers == p.answers + [a];
        assert AnswerNames(sv.answers) == AnswerNames(p.answers) + [x.name];
        NameSetAppend(AnswerNames(p.answers), [x.name]);
        NameSetOne(x.name);
        SubsetSize(t, t + {x.name});
        ServeKeeps(s, max, xs[..n], alloc);
        FindRecent(p.cache, max, x.name, t);
        FindWellFormed(p.cache, max, x.name, true);
        AnswerInNames(p.answers);
      } else {
        ServeKeeps(s, max, xs[..n], alloc);
      }
    }
  }

  lemma {:induction false} FindIdxNat(s: Cache, max: nat, name: Name)
    requires max >= 1
    ensures FindIdx(s, max, name, true) >= 0
  {
  }

  lemma {:induction false} AnswerInNames(answers: seq<Answer>)
    ensures forall i :: 0 <= i < |answers| ==> answers[i].name in NameSet(AnswerNames(answers))
  {
    forall i | 0 <= i < |answers| ensures answers[i].name in NameSet(AnswerNames(answers)) {
      assert AnswerNames(answers)[i] == answers[i].name;
    }
  }

  lemma {:induction false} ServeWellFormed(s: Cache, max: nat, xs: seq<Question>, alloc: seq<bool>)
    requires max >= 1 && WellFormed(s, max) && |alloc| >= |xs|
    ensures WellFormed(Serve(s, max, xs, alloc).cache, max)
    decreases |xs|
  {
    if xs != [] {
      var n := |xs| - 1;
      ServeWellFormed(s, max, xs[..n], alloc);
      if xs[n].isA {
        FindWellFormed(Serve(s, max, xs[..n], alloc).cache, max, xs[n].name, alloc[n]);
      }
    }
  }

  lemma {:induction false} EntryResolves(s: Cache, max: nat, net: Word, mask: Word, a: Answer)
    requires WellFormed(s, max) && Entry(a.name, a.idx) in s
    requires forall i: nat :: i < max ==> Survives(net, mask, i)
    ensures Resolves(s, net, mask, a)
  {
    var k :| 0 <= k < |s| && s[k] == Entry(a.name, a.idx);
    LookupAt(s, max, k);
    assert Survives(net, mask, a.idx);
  }

  /** The questions of type A and class IN. */
  function AddressQuestions(xs: seq<Question>): seq<Question> {
    if xs == [] then []
    else
      var n := |xs| - 1;
      AddressQuestions(xs[..n]) + if xs[n].isA then [xs[n]] else []
  }

  /** One answer for every address question, in order, if memory does not run out. */
  lemma {:induction false} OneAnswerEach(s: Cache, max: nat, xs: seq<Question>, alloc: seq<bool>)
    requires max >= 1 && |alloc| >= |xs| && forall i :: 0 <= i < |xs| ==> alloc[i]
    ensures var a, y := Serve(s, max, xs, alloc).answers, AddressQuestions(xs);
      |a| == |y| && forall i :: 0 <= i < |a| ==> a[i].off == y[i].off && a[i].name == y[i].name
    decreases |xs|
  {
    if xs != [] {
      var n := |xs| - 1;
      OneAnswerEach(s, max, xs[..n], alloc);
      FindIdxNat(Serve(s, max, xs[..n], alloc).cache, max, xs[n].name);
    }
  }

  /** The names asked for by the address questions, in order. */
  ghost function AskedNames(xs: seq<Question>): seq<Name> {
    var y := AddressQuestions(xs);
    seq(|y|, i requires 0 <= i < |y| => y[i].name)
  }

  lemma {:induction false} AnswersAsked(s: Cache, max: nat, xs: seq<Question>, alloc: seq<bool>)
    requires max >= 1 && |alloc| >= |xs| && forall i :: 0 <= i < |xs| ==> alloc[i]
    ensures AnswerNames(Serve(s, max, xs, alloc).answers) == AskedNames(xs)
  {
    OneAnswerEach(s, max, xs, alloc);
  }

  /** End to end: after a query is answered, and after any lookups, every address in the
      answer resolves to the name that was asked for exactly when the distinct names of the
      address questions fit into the cache. */
  lemma {:induction false} EndToEndIff(s: Cache, max: nat, net: Word, mask: Word, xs: seq<Question>, alloc: seq<bool>,
                                       ops: seq<Op>)
    requires max >= 1 && WellFormed(s, max) && |alloc| >= |xs|
    requires forall i :: 0 <= i < |xs| ==> alloc[i]
    requires forall i: nat :: i < max ==> Survives(net, mask, i)
    requires forall i :: 0 <= i < |ops| ==> ops[i].LookupOp?
    ensures var sv := Serve(s, max, xs, alloc);
      (forall i :: 0 <= i < |sv.answers| ==> Resolves(Run(sv.cache, max, ops), net, mask, sv.answers[i])) <==>
      |NameSet(AskedNames(xs))| <= max
  {
    var sv := Serve(s, max, xs, alloc);
    var s' := Run(sv.cache, max, ops);
    var t := NameSet(AskedNames(xs));
    AnswersAsked(s, max, xs, alloc);
    ServeWellFormed(s, max, xs, alloc);
    LookupsKeep(sv.cache, max, ops);
    hide Serve, AskedNames, Run, Resolves, NameSet, AnswerNames, Names;
    if |t| <= max {
      forall i | 0 <= i < |sv.answers| ensures Resolves(s', net, mask, sv.answers[i]) {
        EndToEnd(s, max, net, mask, xs, alloc, ops, i);
      }
    }
    if forall i :: 0 <= i < |sv.answers| ==> Resolves(s', net, mask, sv.answers[i]) {
      AllCached(s', net, mask, sv.answers);
      CachedNames(s', max);
      SubsetSize(t, NameSet(Names(s')));
    }
  }

  lemma {:induction false} CachedNames(s: Cache, max: nat)
    requires WellFormed(s, max)
    ensures |NameSet(Names(s))| <= max
  {
    NameSetSize(Names(s));
  }

  lemma {:induction false} AllCached(s: Cache, net: Word, mask: Word, answers: seq<Answer>)
    requires forall i :: 0 <= i < |answers| ==> Resolves(s, net, mask, answers[i])
    ensures NameSet(AnswerNames(answers)) <= NameSet(Names(s))
  {
    forall y | y in NameSet(AnswerNames(answers)) ensures y in NameSet(Names(s)) {
      var i :| 0 <= i < |answers| && AnswerNames(answers)[i] == y;
      assert Resolves(s, net, mask, answers[i]);
      var k := PositionIdx(s, HostIndex(mask, Mint(net, answers[i].idx)));
      assert Names(s)[k] == y;
    }
  }

  /** Looking addresses up, in any order and as often as one likes, loses no entry. */
  lemma {:induction false} LookupsKeep(s: Cache, max: nat, ops: seq<Op>)
    requires max >= 1 && WellFormed(s, max) && forall i :: 0 <= i < |ops| ==> ops[i].LookupOp?
    ensures WellFormed(Run(s, max, ops), max) && forall e :: e in Run(s, max, ops) <==> e in s
    decreases |ops|
  {
    if ops != [] {
      var s1 := Step(s, max, ops[0]);
      StepWellFormed(s, max, ops[0]);
      var k := PositionIdx(s, ops[0].idx);
      if k < |s| { TouchEntries(s, k); }
      LookupsKeep(s1, max, ops[1..]);
    }
  }

  /** A query for at most `max` distinct names: every answer resolves, also after other
      answers were looked up. */
  lemma {:induction false} EndToEnd(s: Cache, max: nat, net: Word, mask: Word, xs: seq<Question>, alloc: seq<bool>,
                                    ops: seq<Op>, i: nat)
    requires max >= 1 && WellFormed(s, max) && |alloc| >= |xs|
    requires forall j :: 0 <= j < |xs| ==> alloc[j]
    requires forall j: nat :: j < max ==> Survives(net, mask, j)
    requires forall j :: 0 <= j < |ops| ==> ops[j].LookupOp?
    requires |NameSet(AskedNames(xs))| <= max && i < |Serve(s, max, xs, alloc).answers|
    ensures var sv := Serve(s, max, xs, alloc);
      sv.answers[i].idx < max && Resolves(Run(sv.cache, max, ops), net, mask, sv.answers[i])
  {
    var sv := Serve(s, max, xs, alloc);
    AnswersAsked(s, max, xs, alloc);
    ServeKeeps(s, max, xs, alloc);
    LookupsKeep(sv.cache, max, ops);
    EntryResolves(Run(sv.cache, max, ops), max, net, mask, sv.answers[i]);
  }

  /** Two names and a cache for one: the first answer resolves to the second name. */
  lemma {:induction false} TwoNames(net: Word, mask: Word, a: Question, b: Question)
    requires a.isA && b.isA && a.name != b.name && Survives(net, mask, 0)
    ensures var sv := Serve([], 1, [a, b], [true, true]);
      && |sv.answers| == 2 && sv.answers[0].name == a.name && !Resolves(sv.cache, net, mask, sv.answers[0])
      && LookupName(sv.cache, HostIndex(mask, Mint(net, sv.answers[0].idx))) == Some(b.name)
  {
    hide Serve, ServeOne, LookupName, HostIndex, Mint;
    var al := [true, true];
    ServeNone([], 1, al);
    ServeSnoc([], 1, [], a, al);
    ServeSnoc([], 1, [a], b, al);
    assert [] + [a] == [a] && [a] + [b] == [a, b];
    FirstName(a);
    SecondName(a, b);
    OnlyEntry(b.name);
  }

  lemma {:induction false} ServeNone(s: Cache, max: nat, alloc: seq<bool>)
    requires max >= 1
    ensures Serve(s, max, [], alloc) == Served([], s)
  {
  }

  lemma {:induction false} FirstName(a: Question)
    requires a.isA
    ensures ServeOne(Served([], []), 1, a, true) == Served([Answer(a.off, 0, a.name)], [Entry(a.name, 0)])
  {
  }

  lemma {:induction false} SecondName(a: Question, b: Question)
    requires b.isA && a.name != b.name
    ensures var one := Served([Answer(a.off, 0, a.name)], [Entry(a.name, 0)]);
      ServeOne(one, 1, b, true) == Served([Answer(a.off, 0, a.name), Answer(b.off, 0, b.name)], [Entry(b.name, 0)])
  {
    var s := [Entry(a.name, 0)];
    assert Position(s, b.name) == 1;
    assert s[1..] + [Entry(b.name, 0)] == [Entry(b.name, 0)];
  }

  lemma {:induction false} OnlyEntry(name: Name)
    ensures LookupName([Entry(name, 0)], 0) == Some(name)
  {
  }

  // ---------- which questions are answered ----------

  /** Every question read is a complete one in front of where reading stopped. */
  predicate WithinRead(q: seq<Byte>, qlen: nat, off: nat, x: Question)
    requires Readable(q, qlen)
  {
    && HEADER <= x.off <= qlen && Complete(q, qlen, x.off) && x == QuestionAt(q, qlen, x.off)
    && NameEnd(q, qlen, x.off).value + 5 <= off
  }

  lemma {:induction false} ParsedWithin(q: seq<Byte>, qlen: nat, n: nat, i: nat)
    requires Readable(q, qlen) && i < |Parse(q, qlen, n).questions|
    ensures WithinRead(q, qlen, Parse(q, qlen, n).off, Parse(q, qlen, n).questions[i])
  {
    var p := Parse(q, qlen, n - 1);
    if i < |p.questions| {
      ParsedWithin(q, qlen, n - 1, i);
      if p.ok && Complete(q, qlen, p.off) {
        WithinLater(q, qlen, p.off, NameEnd(q, qlen, p.off).value + 5, p.questions[i]);
      }
    } else {
      NextWithin(q, qlen, p.off);
    }
  }

  lemma {:induction false} NextWithin(q: seq<Byte>, qlen: nat, off: nat)
    requires Readable(q, qlen) && HEADER <= off <= qlen && Complete(q, qlen, off)
    ensures WithinRead(q, qlen, NameEnd(q, qlen, off).value + 5, QuestionAt(q, qlen, off))
  {
  }

  lemma {:induction false} WithinLater(q: seq<Byte>, qlen: nat, off: nat, off': nat, x: Question)
    requires Readable(q, qlen) && WithinRead(q, qlen, off, x) && off <= off'
    ensures WithinRead(q, qlen, off', x)
  {
  }

  lemma {:induction false} AddressQuestionsIn(xs: seq<Question>)
    ensures forall x :: x in AddressQuestions(xs) ==> x.isA && x in xs
  {
    if xs != [] {
      var n := |xs| - 1;
      AddressQuestionsIn(xs[..n]);
      assert forall x :: x in xs[..n] ==> x in xs;
      assert xs[n] in xs;
    }
  }
}
