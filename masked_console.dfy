/**
 * The masked password prompt (Console.ReadPassword): keys are read until
 * Enter; Backspace drops the last accepted character, Ctrl+Backspace (127)
 * drops them all, NUL, Escape, Tab and Line feed are ignored and every
 * other key is accepted. The key stream is a parameter and the echo of the
 * mask is left out; the Stack<char> is a sequence whose first element is
 * the top of the stack, the order in which a .NET stack enumerates.
 */
module MaskedConsole {

  const Enter: char := 13 as char
  const Backspace: char := 8 as char
  const CtrlBackspace: char := 127 as char

  /** Keys dropped without effect; space is allowed in passwords. */
  const Filtered: seq<char> := [0 as char, 27 as char, 9 as char, 10 as char]

  /** The keys that never end up in a password. */
  predicate IsControl(c: char)
  {
    c == Enter || c == Backspace || c == CtrlBackspace || c in Filtered
  }

  /** The accepted characters, in typing order, after one more key. */
  function Edit(typed: seq<char>, key: char): (r: seq<char>)
    ensures key != Enter ==> r <= typed || (r == typed + [key] && !IsControl(key))
    ensures !IsControl(key) ==> r == typed + [key]
    ensures key in Filtered ==> r == typed
    ensures key == CtrlBackspace ==> r == []
    ensures key == Backspace ==> |r| == if typed == [] then 0 else |typed| - 1
  {
    if key == Backspace then (if typed == [] then [] else typed[..|typed| - 1])
    else if key == CtrlBackspace then []
    else if key in Filtered then typed
    else typed + [key]
  }

  /** The accepted characters after `keys`, starting from `typed`. */
  function Run(typed: seq<char>, keys: seq<char>): seq<char>
  {
    if keys == [] then typed
    else
      var n := |keys| - 1;
      Edit(Run(typed, keys[..n]), keys[n])
  }

  /** The position of the first Enter, or the number of keys when none was pressed (the prompt is still waiting). */
  function FirstEnter(keys: seq<char>): (n: nat)
    ensures n <= |keys|
    ensures Enter !in keys[..n]
    ensures n < |keys| ==> keys[n] == Enter
  {
    if keys == [] then 0
    else if keys[0] == Enter then 0
    else
      var n := 1 + FirstEnter(keys[1..]);
      assert keys[..n] == [keys[0]] + keys[1..][..n - 1];
      n
  }

  /** The first Enter is the only position with no Enter before it and Enter (or the end) at it. */
  lemma FirstEnterUnique(keys: seq<char>, n: nat)
    requires n <= |keys| && Enter !in keys[..n]
    requires n < |keys| ==> keys[n] == Enter
    ensures n == FirstEnter(keys)
  {
  }

  /** What ReadPassword returns for the key stream. */
  function PasswordOf(keys: seq<char>): string
  {
    Run([], keys[..FirstEnter(keys)])
  }

  /** The elements of a sequence in reverse order (Stack.Reverse). */
  function Reverse(s: seq<char>): (r: seq<char>)
    ensures |r| == |s|
    ensures forall i :: 0 <= i < |s| ==> r[i] == s[|s| - 1 - i]
  {
    if s == [] then [] else Reverse(s[1..]) + [s[0]]
  }

  /**
   * The keystroke loop over a stack; the password is the stack reversed,
   * so that it lists the accepted characters in typing order. `consumed` is
   * the number of keys read before Enter.
   */
  method ReadPassword(keys: seq<char>) returns (password: string, consumed: nat)
    ensures consumed == FirstEnter(keys)
    ensures password == PasswordOf(keys)
  {
    var pass: seq<char> := [];
    var i := 0;
    while i < |keys| && keys[i] != Enter
      invariant 0 <= i <= |keys|
      invariant Enter !in keys[..i]
      invariant Reverse(pass) == Run([], keys[..i])
    {
      var chr := keys[i];
      assert keys[..i + 1][..i] == keys[..i];
      if chr == Backspace {
        if |pass| > 0 {
          assert Reverse(pass) == Reverse(pass[1..]) + [pass[0]];
          pass := pass[1..];
        }
      } else if chr == CtrlBackspace {
        while |pass| > 0
          decreases |pass|
        {
          pass := pass[1..];
        }
      } else if chr !in Filtered {
        pass := [chr] + pass;
      }
      i := i + 1;
    }
    FirstEnterUnique(keys, i);
    consumed := i;
    password := Reverse(pass);
  }

  // ---------------------------------------------------------------------
  // Properties of the editor

  /** Keys are applied one after another: a stream split in two is the second part run on the result of the first. */
  lemma {:induction false} RunAppend(typed: seq<char>, xs: seq<char>, ys: seq<char>)
    ensures Run(typed, xs + ys) == Run(Run(typed, xs), ys)
  {
    if ys != [] {
      var n := |ys| - 1;
      assert (xs + ys)[..|xs + ys| - 1] == xs + ys[..n];
      RunAppend(typed, xs, ys[..n]);
    } else {
      assert xs + ys == xs;
    }
  }

  /** Ctrl+Backspace forgets everything typed before it. */
  lemma ClearForgetsEarlierKeys(xs: seq<char>, ys: seq<char>)
    ensures Run([], xs + [CtrlBackspace] + ys) == Run([], ys)
  {
    RunAppend([], xs + [CtrlBackspace], ys);
    assert Run([], xs + [CtrlBackspace]) == [];
  }

  /** Backspace takes back the key typed just before it. */
  lemma BackspaceUndoesKey(xs: seq<char>, c: char)
    requires !IsControl(c)
    ensures Run([], xs + [c, Backspace]) == Run([], xs)
  {
    RunAppend([], xs, [c, Backspace]);
    assert [c, Backspace][..1] == [c];
    assert Run(Run([], xs), [c]) == Run([], xs) + [c];
  }

  /** Backspace drops the last accepted character, and does nothing when none is left. */
  lemma BackspaceDropsLast(xs: seq<char>)
    ensures var typed := Run([], xs);
      Run([], xs + [Backspace]) == if typed == [] then [] else typed[..|typed| - 1]
  {
    assert (xs + [Backspace])[..|xs|] == xs;
  }

  /** Space is not filtered: it is accepted like any other plain key. */
  lemma SpaceIsAccepted(xs: seq<char>)
    ensures Run([], xs + [' ']) == Run([], xs) + [' ']
  {
    assert (xs + [' '])[..|xs|] == xs;
  }

  /** NUL, Escape, Tab and Line feed change nothing, wherever they are typed. */
  lemma FilteredKeyIgnored(xs: seq<char>, c: char, ys: seq<char>)
    requires c in Filtered
    ensures Run([], xs + [c] + ys) == Run([], xs + ys)
  {
    RunAppend([], xs + [c], ys);
    RunAppend([], xs, ys);
    assert (xs + [c])[..|xs|] == xs;
  }

  /** Keys that are not control keys come back exactly as typed. */
  lemma {:induction false} PlainKeysKept(keys: seq<char>)
    requires forall i :: 0 <= i < |keys| ==> !IsControl(keys[i])
    ensures Run([], keys) == keys
  {
    if keys != [] {
      var n := |keys| - 1;
      var c := keys[n];
      assert !IsControl(c);
      assert forall i :: 0 <= i < n ==> keys[..n][i] == keys[i];
      PlainKeysKept(keys[..n]);
      assert Edit(keys[..n], c) == keys[..n] + [c];
      assert keys[..n] + [c] == keys;
    }
  }

  /** Starting from accepted characters only, no control character is ever accepted, and each key adds at most one. */
  lemma {:induction false} RunAcceptsNoControl(typed: seq<char>, keys: seq<char>)
    requires Enter !in keys
    requires forall c :: c in typed ==> !IsControl(c)
    ensures forall c :: c in Run(typed, keys) ==> !IsControl(c)
    ensures |Run(typed, keys)| <= |typed| + |keys|
  {
    if keys != [] {
      var n := |keys| - 1;
      assert keys[n] in keys;
      assert forall c :: c in keys[..n] ==> c in keys;
      RunAcceptsNoControl(typed, keys[..n]);
    }
  }

  /**
   * The password holds none of Enter, Backspace, Ctrl+Backspace, NUL,
   * Escape, Tab and Line feed, and is no longer than the keys read.
   */
  lemma PasswordHasNoControl(keys: seq<char>)
    ensures forall c :: c in PasswordOf(keys) ==> !IsControl(c)
    ensures |PasswordOf(keys)| <= FirstEnter(keys)
  {
    RunAcceptsNoControl([], keys[..FirstEnter(keys)]);
  }

  /** Reading stops at the first Enter: what follows it is never read. */
  lemma StopsAtFirstEnter(xs: seq<char>, ys: seq<char>)
    requires Enter !in xs
    ensures FirstEnter(xs + [Enter] + ys) == |xs|
    ensures PasswordOf(xs + [Enter] + ys) == Run([], xs)
  {
    var keys := xs + [Enter] + ys;
    assert keys[..|xs|] == xs;
    FirstEnterUnique(keys, |xs|);
  }
}
