/** The difference of two canonical chains, found by walking both in the order of their numbers. */
module HashDifference {
  import opened Blocks

  ghost predicate Increasing(xs: seq<NumHash>) {
    forall i, j :: 0 <= i < j < |xs| ==> xs[i].number < xs[j].number
  }

  /** The entries numbered below `n`, in order. */
  function Below(hashes: map<nat, BlockHash>, n: nat): (xs: seq<NumHash>)
    ensures Increasing(xs)
    ensures forall x :: x in xs <==> x.number < n && x.number in hashes && hashes[x.number] == x.hash
  {
    if n == 0 then []
    else Below(hashes, n - 1) + (if n - 1 in hashes then [NumHash(n - 1, hashes[n - 1])] else [])
  }

  /** The entries of `xs` that are not in `ys`, in order. */
  function Missing(xs: seq<NumHash>, ys: seq<NumHash>): (zs: seq<NumHash>)
    ensures forall z :: z in zs <==> z in xs && z !in ys
  {
    if xs == [] then []
    else
      var (init, last) := (xs[..|xs| - 1], xs[|xs| - 1]);
      assert xs == init + [last];
      Missing(init, ys) + (if last in ys then [] else [last])
  }

  lemma MissingStep(xs: seq<NumHash>, ys: seq<NumHash>, i: nat)
    requires i < |xs|
    ensures Missing(xs[..i + 1], ys) == Missing(xs[..i], ys) + (if xs[i] in ys then [] else [xs[i]])
  {
    assert xs[..i + 1][..i] == xs[..i];
  }

  lemma {:induction false} NothingMissing(xs: seq<NumHash>, ys: seq<NumHash>)
    requires forall x :: x in xs ==> x in ys
    ensures Missing(xs, ys) == []
  {
    if xs != [] {
      NothingMissing(xs[..|xs| - 1], ys);
    }
  }

  /** What the walk has passed lies below what is ahead of it on the other side. */
  ghost predicate Apart(xs: seq<NumHash>, i: nat, ys: seq<NumHash>, j: nat) {
    forall a, b :: 0 <= a < i <= |xs| && j <= b < |ys| ==> xs[a].number < ys[b].number
  }

  /** The next entry is not on a side whose entries ahead are all above it. */
  lemma NotOnOtherSide(xs: seq<NumHash>, i: nat, ys: seq<NumHash>, j: nat)
    requires Apart(xs, i, ys, j) && Increasing(xs) && i <= |xs| && j < |ys|
    requires i == |xs| || ys[j].number < xs[i].number
    ensures ys[j] !in xs
  {
    forall a | 0 <= a < |xs|
      ensures xs[a].number != ys[j].number
    {
      if a >= i {
        assert xs[i].number <= xs[a].number;
      }
    }
  }

  /** An entry met on the other side under the same number is there exactly if the hashes agree. */
  lemma OnOtherSide(xs: seq<NumHash>, i: nat, y: NumHash)
    requires Increasing(xs) && i < |xs| && xs[i].number == y.number
    ensures y in xs <==> xs[i].hash == y.hash
  {
    if y in xs {
      var a :| 0 <= a < |xs| && xs[a] == y;
      assert a == i;
    }
  }

  lemma PassedBy(xs: seq<NumHash>, i: nat, ys: seq<NumHash>, j: nat)
    requires Apart(xs, i, ys, j) && Apart(ys, j, xs, i) && Increasing(xs) && Increasing(ys) && i <= |xs| && j < |ys|
    requires i == |xs| || ys[j].number < xs[i].number
    ensures Apart(xs, i, ys, j + 1) && Apart(ys, j + 1, xs, i)
  {
  }

  lemma PassedBoth(xs: seq<NumHash>, i: nat, ys: seq<NumHash>, j: nat)
    requires Apart(xs, i, ys, j) && Increasing(ys) && i < |xs| && j < |ys| && xs[i].number == ys[j].number
    ensures Apart(xs, i + 1, ys, j + 1)
  {
  }

  /** The entries dropped from and added to the first chain on the way to the second. */
  method Compare(olds: seq<NumHash>, news: seq<NumHash>) returns (removed: seq<NumHash>, added: seq<NumHash>)
    requires Increasing(olds) && Increasing(news)
    ensures removed == Missing(olds, news) && added == Missing(news, olds)
  {
    removed, added := [], [];
    var i, j := 0, 0;
    NothingMissing(olds[..0], news);
    NothingMissing(news[..0], olds);
    hide Missing; hide Increasing;
    while i < |olds| || j < |news|
      invariant i <= |olds| && j <= |news|
      invariant removed == Missing(olds[..i], news) && added == Missing(news[..j], olds)
      invariant Apart(olds, i, news, j) && Apart(news, j, olds, i)
      decreases |olds| - i + |news| - j
    {
      if i == |olds| || (j < |news| && news[j].number < olds[i].number) {
        MissingStep(news, olds, j);
        NotOnOtherSide(olds, i, news, j);
        PassedBy(olds, i, news, j);
        added := added + [news[j]];
        j := j + 1;
      } else if j == |news| || olds[i].number < news[j].number {
        MissingStep(olds, news, i);
        NotOnOtherSide(news, j, olds, i);
        PassedBy(news, j, olds, i);
        removed := removed + [olds[i]];
        i := i + 1;
      } else {
        MissingStep(news, olds, j);
        MissingStep(olds, news, i);
        OnOtherSide(olds, i, news[j]);
        OnOtherSide(news, j, olds[i]);
        PassedBoth(olds, i, news, j);
        PassedBoth(news, j, olds, i);
        if news[j].hash != olds[i].hash {
          removed := removed + [olds[i]];
          added := added + [news[j]];
        }
        i, j := i + 1, j + 1;
      }
    }
    assert olds[..|olds|] == olds && news[..|news|] == news;
  }
}
