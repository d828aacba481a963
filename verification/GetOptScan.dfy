// getopt_internal's scan of argv: what nonopt_start, nonopt_end and optind mean, and how argv ends up.
module GetOptScan {
  import GetOpt

  // What the scan sees in an argument. An option takes up to `width` elements of argv.
  datatype Kind = Operand | Option(width: nat) | Terminator

  // ------------------------------------------------------------------ what is promised

  function Truths(n: nat, value: bool): (s: seq<bool>)
    ensures |s| == n && forall k :: 0 <= k < n ==> s[k] == value
  {
    seq(n, k => value)
  }

  function Width<T>(kind: T -> Kind, x: T): nat {
    match kind(x)
    case Option(w) => if w >= 1 then w else 1
    case _ => 1
  }

  // Which elements of args[i..] belong to the options: an option and its arguments, and "--", after
  // which everything is an operand.
  function Marks<T>(kind: T -> Kind, args: seq<T>, i: nat): (marks: seq<bool>)
    requires i <= |args|
    ensures |marks| == |args| - i
    decreases |args| - i
  {
    if i == |args| then []
    else match kind(args[i])
      case Operand => [false] + Marks(kind, args, i + 1)
      case Terminator => [true] + Truths(|args| - i - 1, false)
      case Option(_) =>
        var w := Width(kind, args[i]);
        if i + w >= |args| then Truths(|args| - i, true) else Truths(w, true) + Marks(kind, args, i + w)
  }

  // The elements among the first n with the given mark, in order.
  function Picked<T>(args: seq<T>, marks: seq<bool>, n: nat, mark: bool): (r: seq<T>)
    requires n <= |args| == |marks|
  {
    if n == 0 then [] else Picked(args, marks, n - 1, mark) + (if marks[n - 1] == mark then [args[n - 1]] else [])
  }

  // The options of args[i..], each reported once, in order.
  function Reported<T>(kind: T -> Kind, args: seq<T>, i: nat): seq<T>
    decreases |args| - i
  {
    if i >= |args| then []
    else match kind(args[i])
      case Operand => Reported(kind, args, i + 1)
      case Terminator => []
      case Option(_) => [args[i]] + Reported(kind, args, i + Width(kind, args[i]))
  }

  // Options first, then operands, each in their order: a stable partition.
  function Partitioned<T>(kind: T -> Kind, args: seq<T>): seq<T> {
    var marks := Marks(kind, args, 0);
    Picked(args, marks, |args|, true) + Picked(args, marks, |args|, false)
  }

  lemma PickOne<T>(a: seq<T>, p: seq<T>, q: seq<T>, x: T)
    requires multiset(a) == multiset(p) + multiset(q)
    ensures multiset(a + [x]) == multiset(p + [x]) + multiset(q)
    ensures multiset(a + [x]) == multiset(p) + multiset(q + [x])
  {
    assert multiset(a + [x]) == multiset(a) + multiset([x]);
    assert multiset(p + [x]) == multiset(p) + multiset([x]);
    assert multiset(q + [x]) == multiset(q) + multiset([x]);
  }

  lemma PickedStep<T>(args: seq<T>, marks: seq<bool>, n: nat)
    requires 1 <= n <= |args| == |marks|
    ensures var yes, no := Picked(args, marks, n - 1, true), Picked(args, marks, n - 1, false);
      && Picked(args, marks, n, true) == (if marks[n - 1] then yes + [args[n - 1]] else yes)
      && Picked(args, marks, n, false) == (if marks[n - 1] then no else no + [args[n - 1]])
  {
  }

  // a is yes and no together.
  ghost predicate Splits<T>(a: seq<T>, yes: seq<T>, no: seq<T>) {
    multiset(a) == multiset(yes) + multiset(no) && |a| == |yes| + |no|
  }

  lemma SplitsNext<T>(a: seq<T>, yes: seq<T>, no: seq<T>, x: T, mark: bool)
    requires Splits(a, yes, no)
    ensures Splits(a + [x], if mark then yes + [x] else yes, if mark then no else no + [x])
  {
    PickOne(a, yes, no, x);
  }

  lemma {:induction false} PickedAll<T>(args: seq<T>, marks: seq<bool>, n: nat)
    requires n <= |args| == |marks|
    ensures Splits(args[..n], Picked(args, marks, n, true), Picked(args, marks, n, false))
  {
    hide Splits;
    if n == 0 {
      assert args[..0] == [];
      SplitsNothing<T>();
    } else {
      PickedAll(args, marks, n - 1);
      PickedStep(args, marks, n);
      var yes, no := Picked(args, marks, n - 1, true), Picked(args, marks, n - 1, false);
      assert args[..n] == args[..n - 1] + [args[n - 1]];
      SplitsNext(args[..n - 1], yes, no, args[n - 1], marks[n - 1]);
    }
  }

  lemma SplitsNothing<T>()
    ensures Splits<T>([], [], [])
  {
  }

  // Nothing is lost: the partition is a permutation.
  lemma PartitionedPermutes<T>(kind: T -> Kind, args: seq<T>)
    ensures multiset(Partitioned(kind, args)) == multiset(args)
  {
    var marks := Marks(kind, args, 0);
    PickedAll(args, marks, |args|);
    assert args[..|args|] == args;
  }

  lemma {:induction false} PickedRun<T>(args: seq<T>, marks: seq<bool>, i: nat, w: nat, mark: bool)
    requires i + w <= |args| == |marks| && forall k :: i <= k < i + w ==> marks[k] == mark
    ensures Picked(args, marks, i + w, mark) == Picked(args, marks, i, mark) + args[i..i + w]
    ensures Picked(args, marks, i + w, !mark) == Picked(args, marks, i, !mark)
    decreases w
  {
    if w > 0 {
      PickedRun(args, marks, i, w - 1, mark);
      assert args[i..i + w] == args[i..i + w - 1] + [args[i + w - 1]];
    } else {
      assert args[i..i] == [];
    }
  }

  // ------------------------------------------------------------------ what the scan keeps

  // The first optind arguments hold the options and operands met so far. Without nonopt_start there are
  // no operands; with nonopt_end the operands still lie before the options met since.
  ghost predicate Arranged<T>(was: seq<T>, marks: seq<bool>, now: seq<T>, optind: nat, start: int, end: int) {
    && |was| == |marks| == |now| && optind <= |was|
    && now[optind..] == was[optind..]
    && var opts, nons := Picked(was, marks, optind, true), Picked(was, marks, optind, false);
    && |opts| + |nons| == optind
    && (start == -1 ==> end == -1 && nons == [] && now[..optind] == opts)
    && (start != -1 && end == -1 ==> nons != [] && start == |opts| && now[..optind] == opts + nons)
    && (start != -1 && end != -1 ==>
          && 0 <= start < end <= optind && end - start == |nons| && start <= |opts|
          && now[..optind] == opts[..start] + nons + opts[start..])
  }

  lemma Unmet<T>(was: seq<T>, marks: seq<bool>, now: seq<T>, optind: nat, start: int, end: int)
    requires Arranged(was, marks, now, optind, start, end)
    ensures optind <= |was| == |now| == |marks| && (start == -1 ==> end == -1)
    ensures optind < |was| ==> now[optind] == was[optind]
  {
    if optind < |was| {
      assert now[optind] == now[optind..][0];
    }
  }

  lemma ReportedStep<T>(kind: T -> Kind, args: seq<T>, i: nat)
    ensures i >= |args| ==> Reported(kind, args, i) == []
    ensures i < |args| && kind(args[i]) == Operand ==> Reported(kind, args, i) == Reported(kind, args, i + 1)
    ensures i < |args| && kind(args[i]) == Terminator ==> Reported(kind, args, i) == []
    ensures i < |args| && kind(args[i]).Option? ==>
      && Width(kind, args[i]) >= 1
      && Reported(kind, args, i) == [args[i]] + Reported(kind, args, i + Width(kind, args[i]))
      && (i + Width(kind, args[i]) >= |args| ==> Reported(kind, args, i) == [args[i]] + Reported(kind, args, |args|))
  {
  }

  // The marks still to come are those of a walk that starts here.
  ghost predicate OnWalk<T>(kind: T -> Kind, was: seq<T>, marks: seq<bool>, optind: nat) {
    && |marks| == |was| && optind <= |was|
    && marks[optind..] == Marks(kind, was, optind)
  }

  // Moving the operands behind the options leaves them where the next operand extends them.
  lemma Settles<T>(was: seq<T>, marks: seq<bool>, now: seq<T>, optind: nat, start: int, end: int)
    requires Arranged(was, marks, now, optind, start, end) && end != -1 && end < optind
    ensures Arranged(was, marks, GetOpt.Exchanged(now, start, end, optind), optind, optind - (end - start), -1)
  {
    var opts, nons := Picked(was, marks, optind, true), Picked(was, marks, optind, false);
    assert now[..start] == now[..optind][..start] == opts[..start];
    assert now[start..end] == now[..optind][start..end] == nons;
    assert now[end..optind] == now[..optind][end..] == opts[start..];
    assert opts == opts[..start] + opts[start..];
    var next := GetOpt.Exchanged(now, start, end, optind);
    assert next[..optind] == opts[..start] + opts[start..] + nons;
    assert next[optind..] == now[optind..];
  }

  // The first option behind the operands.
  lemma OptionsBegin<T>(was: seq<T>, marks: seq<bool>, now: seq<T>, optind: nat, start: int)
    requires Arranged(was, marks, now, optind, start, -1) && start != -1
    ensures Arranged(was, marks, now, optind, start, optind)
  {
    var opts := Picked(was, marks, optind, true);
    assert opts[..start] == opts && opts[start..] == [];
  }

  lemma OperandMet<T>(kind: T -> Kind, was: seq<T>, marks: seq<bool>, now: seq<T>, optind: nat, start: int)
    requires Arranged(was, marks, now, optind, start, -1) && OnWalk(kind, was, marks, optind)
    requires optind < |was| && kind(now[optind]) == Operand
    ensures Arranged(was, marks, now, optind + 1, if start == -1 then optind else start, -1)
    ensures OnWalk(kind, was, marks, optind + 1)
  {
    assert now[optind] == now[optind..][0] == was[optind];
    assert marks[optind] == marks[optind..][0] == false;
    assert marks[optind + 1..] == marks[optind..][1..];
    assert now[optind + 1..] == now[optind..][1..] && was[optind + 1..] == was[optind..][1..];
    assert now[..optind + 1] == now[..optind] + [now[optind]];
  }

  lemma Appended<T>(s: seq<T>, more: seq<T>, k: nat)
    requires k <= |s|
    ensures (s + more)[..k] == s[..k] && (s + more)[k..] == s[k..] + more
  {
  }

  // An option and its arguments, or "--", join the options met so far.
  lemma OptionsMet<T>(was: seq<T>, marks: seq<bool>, now: seq<T>, optind: nat, start: int, end: int, w: nat)
    requires Arranged(was, marks, now, optind, start, end) && (start != -1 ==> end != -1)
    requires optind + w <= |was| && forall k :: optind <= k < optind + w ==> marks[k]
    ensures Arranged(was, marks, now, optind + w, start, end)
  {
    PickedRun(was, marks, optind, w, true);
    RunOn(was, now, optind, w);
    var opts, more := Picked(was, marks, optind, true), was[optind..optind + w];
    hide Picked;
    if start == -1 {
    } else {
      Appended(opts, more, start);
      var nons := Picked(was, marks, optind, false);
      Grouped(opts[..start], nons, opts[start..], more);
    }
  }

  // The next w elements, not yet touched.
  lemma RunOn<T>(was: seq<T>, now: seq<T>, optind: nat, w: nat)
    requires optind + w <= |was| == |now| && now[optind..] == was[optind..]
    ensures now[optind + w..] == was[optind + w..]
    ensures now[..optind + w] == now[..optind] + was[optind..optind + w]
  {
    assert now[optind + w..] == now[optind..][w..] && was[optind + w..] == was[optind..][w..];
    assert now[optind..optind + w] == now[optind..][..w] && was[optind..optind + w] == was[optind..][..w];
    assert now[..optind + w] == now[..optind] + now[optind..optind + w];
  }

  lemma Grouped<T>(a: seq<T>, b: seq<T>, c: seq<T>, d: seq<T>)
    ensures a + b + c + d == a + b + (c + d)
  {
  }

  lemma WalkOption<T>(kind: T -> Kind, was: seq<T>, marks: seq<bool>, optind: nat) returns (w: nat)
    requires OnWalk(kind, was, marks, optind) && optind < |was| && kind(was[optind]).Option?
    ensures w == (if optind + Width(kind, was[optind]) >= |was| then |was| - optind else Width(kind, was[optind]))
    ensures forall k :: optind <= k < optind + w ==> marks[k]
    ensures OnWalk(kind, was, marks, optind + w)
  {
    var width := Width(kind, was[optind]);
    w := if optind + width >= |was| then |was| - optind else width;
    var ahead := Marks(kind, was, optind);
    forall k | optind <= k < optind + w
      ensures marks[k]
    {
      assert marks[k] == marks[optind..][k - optind] == ahead[k - optind];
    }
    assert marks[optind + w..] == marks[optind..][w..];
  }

  lemma WalkTerminator<T>(kind: T -> Kind, was: seq<T>, marks: seq<bool>, optind: nat)
    requires OnWalk(kind, was, marks, optind) && optind < |was| && kind(was[optind]).Terminator?
    ensures marks[optind] && forall k :: optind < k < |was| ==> !marks[k]
  {
    forall k | optind <= k < |was|
      ensures marks[k] == (k == optind)
    {
      assert marks[k] == marks[optind..][k - optind];
    }
  }

  // With only operands left, options-then-operands so far is the partition of the whole.
  lemma ScanDone<T>(kind: T -> Kind, was: seq<T>, now: seq<T>, optind: nat, start: int)
    requires Arranged(was, Marks(kind, was, 0), now, optind, start, -1)
    requires forall k :: optind <= k < |was| ==> !Marks(kind, was, 0)[k]
    ensures now == Partitioned(kind, was)
    ensures |Picked(was, Marks(kind, was, 0), |was|, true)| == if start == -1 then optind else start
  {
    var marks := Marks(kind, was, 0);
    PickedRun(was, marks, optind, |was| - optind, false);
    assert now == now[..optind] + now[optind..];
  }

  // ------------------------------------------------------------------ the scan

  class Parser<T> {
    const kind: T -> Kind
    const nargv: array<T>
    var optind: nat
    var nonoptStart: int
    var nonoptEnd: int
    ghost const was: seq<T>

    ghost predicate Valid()
      reads this, nargv
    {
      && Arranged(was, Marks(kind, was, 0), nargv[..], optind, nonoptStart, nonoptEnd)
      && (nonoptEnd != -1 ==> nonoptEnd < optind)
      && OnWalk(kind, was, Marks(kind, was, 0), optind)
    }

    constructor (kind: T -> Kind, nargv: array<T>)
      ensures Valid() && was == nargv[..] && this.nargv == nargv && this.kind == kind && optind == 0
    {
      this.kind := kind;
      this.nargv := nargv;
      optind := 0;
      nonoptStart := -1;
      nonoptEnd := -1;
      was := nargv[..];
    }

    // permute_args, and the operands' new place.
    method Permute()
      requires Valid() && nonoptEnd != -1
      modifies this`nonoptStart, this`nonoptEnd, nargv
      ensures Valid() && nonoptEnd == -1 && nonoptStart != -1
    {
      Settles(was, Marks(kind, was, 0), nargv[..], optind, nonoptStart, nonoptEnd);
      GetOpt.PermuteArgs(nonoptStart, nonoptEnd, optind, nargv);
      nonoptStart := optind - (nonoptEnd - nonoptStart);
      nonoptEnd := -1;
    }

    // Passes over operands, moving those met before behind the options that followed them.
    method SkipOperands()
      requires Valid()
      modifies this, nargv
      ensures Valid() && old(optind) <= optind <= |was| == nargv.Length
      ensures optind < |was| ==> nargv[optind] == was[optind] && kind(was[optind]) != Operand
      ensures nonoptStart == -1 ==> nonoptEnd == -1
      ensures Reported(kind, was, optind) == Reported(kind, was, old(optind))
    {
      hide Arranged, OnWalk, Picked, Width, Marks, Reported;
      ghost var marks := Marks(kind, was, 0);
      Unmet(was, marks, nargv[..], optind, nonoptStart, nonoptEnd);
      while optind < nargv.Length && kind(nargv[optind]) == Operand
        invariant Valid() && old(optind) <= optind <= |was| == nargv.Length
        invariant optind < |was| ==> nargv[optind] == was[optind]
        invariant nonoptStart == -1 ==> nonoptEnd == -1
        invariant Reported(kind, was, optind) == Reported(kind, was, old(optind))
        decreases nargv.Length - optind
      {
        ReportedStep(kind, was, optind);
        if nonoptStart != -1 && nonoptEnd != -1 {
          Permute();
          Unmet(was, marks, nargv[..], optind, nonoptStart, nonoptEnd);
        }
        OperandMet(kind, was, marks, nargv[..], optind, nonoptStart);
        if nonoptStart == -1 {
          nonoptStart := optind;
        }
        optind := optind + 1;
        Unmet(was, marks, nargv[..], optind, nonoptStart, nonoptEnd);
      }
    }

    // The index where the next option was found, with its arguments consumed; or none, and argv is partitioned
    // with optind at the first operand.
    method Next() returns (option: int)
      requires Valid()
      modifies this, nargv
      ensures option != -1 ==>
        && Valid() && old(optind) <= option < optind <= |was| == nargv.Length
        && nargv[option] == was[option]
        && Reported(kind, was, old(optind)) == [was[option]] + Reported(kind, was, optind)
      ensures option == -1 ==>
        && Reported(kind, was, old(optind)) == []
        && nargv[..] == Partitioned(kind, was)
        && optind == |Picked(was, Marks(kind, was, 0), |was|, true)|
    {
      hide Arranged, OnWalk, Picked, Partitioned, Width, Marks, Reported;
      ghost var marks := Marks(kind, was, 0);
      SkipOperands();
      ReportedStep(kind, was, optind);
      if optind == nargv.Length {
        Finish();
        return -1;
      }
      if nonoptStart != -1 && nonoptEnd == -1 {
        OptionsBegin(was, marks, nargv[..], optind, nonoptStart);
        nonoptEnd := optind;
      }
      if kind(nargv[optind]) == Terminator {
        WalkTerminator(kind, was, marks, optind);
        OptionsMet(was, marks, nargv[..], optind, nonoptStart, nonoptEnd, 1);
        optind := optind + 1;
        Finish();
        return -1;
      }
      option := optind;
      var width := Width(kind, nargv[optind]);
      ghost var w := WalkOption(kind, was, marks, optind);
      OptionsMet(was, marks, nargv[..], optind, nonoptStart, nonoptEnd, w);
      optind := if optind + width >= nargv.Length then nargv.Length else optind + width;
    }

    // The end of the scan: the operands go last, and optind is the first of them.
    method Finish()
      requires Arranged(was, Marks(kind, was, 0), nargv[..], optind, nonoptStart, nonoptEnd)
      requires nonoptEnd != -1 ==> nonoptEnd < optind
      requires forall k :: optind <= k < |was| ==> !Marks(kind, was, 0)[k]
      modifies this, nargv
      ensures nargv[..] == Partitioned(kind, was)
      ensures optind == |Picked(was, Marks(kind, was, 0), |was|, true)|
      ensures nonoptStart == nonoptEnd == -1
    {
      if nonoptEnd != -1 {
        Settles(was, Marks(kind, was, 0), nargv[..], optind, nonoptStart, nonoptEnd);
        ScanDone(kind, was, GetOpt.Exchanged(nargv[..], nonoptStart, nonoptEnd, optind), optind,
          optind - (nonoptEnd - nonoptStart));
        GetOpt.PermuteArgs(nonoptStart, nonoptEnd, optind, nargv);
        optind := optind - (nonoptEnd - nonoptStart);
      } else {
        ScanDone(kind, was, nargv[..], optind, nonoptStart);
        if nonoptStart != -1 {
          optind := nonoptStart;
        }
      }
      nonoptStart := -1;
      nonoptEnd := -1;
    }
  }

  // A whole run, as callers loop over getopt until -1.
  method ParseAll<T>(kind: T -> Kind, nargv: array<T>) returns (options: seq<T>, optind: nat)
    modifies nargv
    ensures options == Reported(kind, old(nargv[..]), 0)
    ensures nargv[..] == Partitioned(kind, old(nargv[..]))
    ensures optind == |Picked(old(nargv[..]), Marks(kind, old(nargv[..]), 0), nargv.Length, true)|
  {
    hide Arranged, OnWalk, Picked, Partitioned, Width, Marks, Reported;
    var p := new Parser(kind, nargv);
    options := [];
    var option := p.Next();
    while option != -1
      invariant fresh(p) && p.nargv == nargv && p.kind == kind && p.was == old(nargv[..])
      invariant option != -1 ==>
        && p.Valid() && 0 <= option < p.optind <= |p.was| == nargv.Length
        && nargv[option] == p.was[option]
        && Reported(kind, p.was, 0) == options + [p.was[option]] + Reported(kind, p.was, p.optind)
      invariant option == -1 ==>
        && options == Reported(kind, p.was, 0) && nargv[..] == Partitioned(kind, p.was)
        && p.optind == |Picked(p.was, Marks(kind, p.was, 0), |p.was|, true)|
      decreases if option == -1 then -1 else nargv.Length - p.optind
    {
      assert nargv[option] == p.was[option];
      options := options + [nargv[option]];
      ghost var ahead := Reported(kind, p.was, p.optind);
      option := p.Next();
      if option != -1 {
        assert options + ahead == options + [p.was[option]] + Reported(kind, p.was, p.optind);
      } else {
        assert options + ahead == options;
      }
    }
    optind := p.optind;
  }
}
