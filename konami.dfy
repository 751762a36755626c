/**
 * The Konami-code listener of initializeEasterEggs: an index into the code advances on
 * each matching key, and falls back to 0 on any other key (with no fallback to a
 * shorter partial match). The tenth matching key fires the easter egg.
 */
module Konami {

  const Code: seq<string> := [
    "ArrowUp", "ArrowUp", "ArrowDown", "ArrowDown",
    "ArrowLeft", "ArrowRight", "ArrowLeft", "ArrowRight",
    "KeyB", "KeyA"
  ]

  /** The index after one keydown with the given code. */
  function NextIndex(index: nat, code: string): (r: nat)
    requires index < |Code|
    ensures r < |Code|
    ensures code != Code[index] ==> r == 0
    ensures r != 0 ==> r == index + 1
    ensures code == Code[index] && index + 1 < |Code| ==> r == index + 1
  {
    if code == Code[index] then
      if index + 1 == |Code| then 0 else index + 1
    else 0
  }

  /** The keydown fires the easter egg. */
  predicate Fires(index: nat, code: string)
    requires index < |Code|
  {
    code == Code[index] && index + 1 == |Code|
  }

  /** The index after a whole run of keydowns, starting from 0. */
  function IndexAfter(keys: seq<string>): (r: nat)
    ensures r < |Code|
  {
    if |keys| == 0 then 0 else NextIndex(IndexAfter(keys[..|keys| - 1]), keys[|keys| - 1])
  }

  /** The last key of a non-empty run fires the egg. */
  predicate FiresAtEnd(keys: seq<string>) {
    |keys| > 0 && Fires(IndexAfter(keys[..|keys| - 1]), keys[|keys| - 1])
  }

  /** The index counts exactly the last keys, which spell the start of the code. */
  lemma {:induction false} IndexIsMatchedSuffix(keys: seq<string>)
    ensures IndexAfter(keys) <= |keys|
    ensures keys[|keys| - IndexAfter(keys)..] == Code[..IndexAfter(keys)]
  {
    if |keys| > 0 {
      var init, last := keys[..|keys| - 1], keys[|keys| - 1];
      IndexIsMatchedSuffix(init);
      var i := IndexAfter(init);
      if IndexAfter(keys) != 0 {
        assert keys == init + [last];
        MatchExtends(init, last, i);
      }
    }
  }

  /** A matched suffix of i codes followed by code i is a matched suffix of i + 1 codes. */
  lemma MatchExtends(init: seq<string>, last: string, i: nat)
    requires i < |Code| && i <= |init| && init[|init| - i..] == Code[..i] && last == Code[i]
    ensures (init + [last])[|init| - i..] == Code[..i + 1]
  {
    assert (init + [last])[|init| - i..] == init[|init| - i..] + [last];
  }

  /** The egg fires only on a key that completes the ten codes received in a row. */
  lemma FiringMeansFullCode(keys: seq<string>)
    requires FiresAtEnd(keys)
    ensures |keys| >= |Code| && keys[|keys| - |Code|..] == Code
  {
    var init := keys[..|keys| - 1];
    IndexIsMatchedSuffix(init);
    assert keys[|keys| - |Code|..] == init[|init| - (|Code| - 1)..] + [keys[|keys| - 1]];
  }

  /** Starting from index 0, the ten codes in a row advance the index one by one. */
  lemma {:induction false} CodePrefixAdvances(pre: seq<string>, n: nat)
    requires IndexAfter(pre) == 0 && n < |Code|
    ensures IndexAfter(pre + Code[..n]) == n
  {
    if n == 0 {
      assert pre + Code[..0] == pre;
    } else {
      CodePrefixAdvances(pre, n - 1);
      var keys := pre + Code[..n];
      assert keys[..|keys| - 1] == pre + Code[..n - 1];
      assert keys[|keys| - 1] == Code[n - 1];
    }
  }

  /** From index 0, the full code fires the egg on its last key and leaves the index at 0. */
  lemma FullCodeFires(pre: seq<string>)
    requires IndexAfter(pre) == 0
    ensures FiresAtEnd(pre + Code) && IndexAfter(pre + Code) == 0
  {
    CodePrefixAdvances(pre, |Code| - 1);
    assert (pre + Code)[..|pre + Code| - 1] == pre + Code[..|Code| - 1];
  }

  /**
   * A third ArrowUp does not keep a partial match although the code starts with
   * ArrowUp: the index falls to 0, not to 1.
   */
  lemma NoOverlapFallback()
    ensures IndexAfter(["ArrowUp", "ArrowUp", "ArrowUp"]) == 0
    ensures IndexAfter(["ArrowUp", "ArrowUp", "ArrowUp", "ArrowUp"]) == 1
  {
    var up: seq<string> := ["ArrowUp"];
    assert IndexAfter(up) == 1 by {
      assert up[..0] == [];
    }
    assert IndexAfter(up + up) == 2 by {
      assert (up + up)[..1] == up;
    }
    assert IndexAfter(up + up + up) == 0 by {
      assert (up + up + up)[..2] == up + up;
    }
    assert IndexAfter(up + up + up + up) == 1 by {
      assert (up + up + up + up)[..3] == up + up + up;
    }
    assert up + up + up == ["ArrowUp", "ArrowUp", "ArrowUp"];
    assert up + up + up + up == ["ArrowUp", "ArrowUp", "ArrowUp", "ArrowUp"];
  }

  /** Once the index is 0, keys other than ArrowUp keep it at 0. */
  lemma {:induction false} StaysAtZero(pre: seq<string>, keys: seq<string>)
    requires IndexAfter(pre) == 0
    requires forall i :: 0 <= i < |keys| ==> keys[i] != Code[0]
    ensures IndexAfter(pre + keys) == 0
  {
    if |keys| > 0 {
      var init := keys[..|keys| - 1];
      StaysAtZero(pre, init);
      assert (pre + keys)[..|pre + keys| - 1] == pre + init;
    } else {
      assert pre + keys == pre;
    }
  }

  /**
   * A stray ArrowUp in front of the code keeps the code from firing: the third ArrowUp
   * in a row resets the index, and no later key of the code is ArrowUp.
   */
  lemma StrayArrowUpBlocks()
    ensures !FiresAtEnd(["ArrowUp"] + Code)
  {
    var ups: seq<string> := ["ArrowUp", "ArrowUp", "ArrowUp"];
    NoOverlapFallback();
    var rest := Code[2..|Code| - 1];
    StaysAtZero(ups, rest);
    var keys := ["ArrowUp"] + Code;
    assert keys[..|keys| - 1] == ups + rest;
    assert IndexAfter(keys[..|keys| - 1]) == 0;
    assert !Fires(0, keys[|keys| - 1]);
  }

  /** The keydown listener and the number of times it has fired the egg. */
  class KonamiListener {
    var index: nat
    var eggs: nat

    predicate Valid()
      reads this
    {
      index < |Code|
    }

    constructor ()
      ensures Valid() && index == 0 && eggs == 0
    {
      index := 0;
      eggs := 0;
    }

    method KeyDown(code: string)
      requires Valid()
      modifies this
      ensures Valid()
      ensures index == NextIndex(old(index), code)
      ensures eggs == old(eggs) + (if Fires(old(index), code) then 1 else 0)
    {
      if code == Code[index] {
        index := index + 1;
        if index == |Code| {
          eggs := eggs + 1;
          index := 0;
        }
      } else {
        index := 0;
      }
    }
  }
}
