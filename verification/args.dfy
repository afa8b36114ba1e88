/**
 The command-line lookup of scripts/test-messages.js: `arg(name)` finds the first
 argument of the form `--name=value` and returns what follows the first `=`, by
 splitting on `=` and joining the rest back; the script then falls back to the
 first listed number when no phone was given.
 */
module Args {
  import opened Optional
  import opened Text
  import Listing

  /** `s.split(c)`: the pieces between the occurrences of `c`; there is always at least one. */
  function Split(s: string, c: char): (r: seq<string>)
    ensures |r| >= 1
    ensures forall k :: 0 <= k < |r| ==> c !in r[k]
    decreases |s|
  {
    if s == [] then [[]]
    else
      var rest := Split(s[1..], c);
      if s[0] == c then [[]] + rest
      else [[s[0]] + rest[0]] + rest[1..]
  }

  /** `parts.join(c)`; the empty list joins to "". */
  function Join(parts: seq<string>, c: char): string
    decreases |parts|
  {
    if |parts| == 0 then []
    else if |parts| == 1 then parts[0]
    else parts[0] + [c] + Join(parts[1..], c)
  }

  /** Joining the pieces puts the string back together. */
  lemma {:induction false} JoinSplit(s: string, c: char)
    ensures Join(Split(s, c), c) == s
    decreases |s|
  {
    if s != [] {
      JoinSplit(s[1..], c);
      var rest := Split(s[1..], c);
      if s[0] == c {
        assert Split(s, c)[1..] == rest;
        assert s == [c] + s[1..];
      } else {
        var r := Split(s, c);
        if |rest| == 1 {
          assert s == [s[0]] + s[1..];
        } else {
          assert r[1..] == rest[1..];
          assert Join(rest, c) == rest[0] + [c] + Join(rest[1..], c);
          assert s == [s[0]] + s[1..];
        }
      }
    }
  }

  /** The first piece ends at the first `c`; the others are the split of what follows it. */
  lemma {:induction false} SplitAtFirst(s: string, c: char, i: int)
    requires 0 <= i < |s| && s[i] == c && forall k :: 0 <= k < i ==> s[k] != c
    ensures Split(s, c) == [s[..i]] + Split(s[i + 1..], c)
    decreases i
  {
    if i > 0 {
      assert s[1..][i - 1] == c;
      assert s[1..][i..] == s[i + 1..];
      SplitAtFirst(s[1..], c, i - 1);
      assert s[..i] == [s[0]] + s[1..][..i - 1];
    } else {
      assert s[1..] == s[i + 1..];
    }
  }

  /** The position of the first `c` in `s`. */
  function FirstIndex(s: string, c: char): (i: nat)
    requires c in s
    ensures i < |s| && s[i] == c && forall k :: 0 <= k < i ==> s[k] != c
    decreases |s|
  {
    if s[0] == c then 0
    else
      var j := FirstIndex(s[1..], c);
      assert forall k :: 1 <= k <= j ==> s[k] == s[1..][k - 1];
      j + 1
  }

  /** `p.split('=').slice(1).join('=')` is everything after the first `=`, later `=` signs included. */
  lemma SplitJoinIsAfterFirst(p: string)
    requires '=' in p
    ensures Join(Split(p, '=')[1..], '=') == p[FirstIndex(p, '=') + 1..]
  {
    var i := FirstIndex(p, '=');
    SplitAtFirst(p, '=', i);
    assert Split(p, '=')[1..] == Split(p[i + 1..], '=');
    JoinSplit(p[i + 1..], '=');
  }

  /** The prefix an argument must carry: `--name=`. */
  function Flag(name: string): string {
    "--" + name + "="
  }

  /** The index of the first argument that starts with `prefix`. */
  function FindArg(argv: seq<string>, prefix: string): (r: Option<nat>)
    ensures r.None? <==> forall k :: 0 <= k < |argv| ==> !StartsWith(argv[k], prefix)
    ensures r.Some? ==> r.value < |argv| && StartsWith(argv[r.value], prefix)
    ensures r.Some? ==> forall k :: 0 <= k < r.value ==> !StartsWith(argv[k], prefix)
    decreases |argv|
  {
    if |argv| == 0 then None
    else if StartsWith(argv[0], prefix) then Some(0)
    else
      match FindArg(argv[1..], prefix)
      case None =>
        assert forall k :: 1 <= k < |argv| ==> argv[k] == argv[1..][k - 1];
        None
      case Some(j) =>
        assert forall k :: 1 <= k <= j + 1 ==> argv[k] == argv[1..][k - 1];
        Some(j + 1)
  }

  /** `arg(name)`: `None` (null) when no argument starts with `--name=`, else the first one's value. */
  function Arg(argv: seq<string>, name: string): (r: Option<string>)
    ensures r.None? <==> forall k :: 0 <= k < |argv| ==> !StartsWith(argv[k], Flag(name))
  {
    match FindArg(argv, Flag(name))
    case None => None
    case Some(j) =>
      var p := argv[j];
      Some(Join(Split(p, '=')[1..], '='))
  }

  /**
   For a name without `=`, the value is the first matching argument with its prefix
   removed: the first `=` is the one that closes the prefix.
   */
  lemma ArgValue(argv: seq<string>, name: string, j: int)
    requires '=' !in name
    requires 0 <= j < |argv| && StartsWith(argv[j], Flag(name))
    requires forall k :: 0 <= k < j ==> !StartsWith(argv[k], Flag(name))
    ensures Arg(argv, name) == Some(argv[j][|name| + 3..])
  {
    var p := argv[j];
    var n := |name| + 2;
    assert p[..n + 1] == Flag(name);
    assert p[n] == '=';
    assert p[..n] == "--" + name;
    assert forall k :: 0 <= k < n ==> p[k] == p[..n][k];
    SplitAtFirst(p, '=', n);
    assert Split(p, '=')[1..] == Split(p[n + 1..], '=');
    JoinSplit(p[n + 1..], '=');
  }

  /** Later `=` signs belong to the value: `--phone=a=b` gives "a=b". */
  lemma ArgKeepsLaterEquals()
    ensures Arg(["--phone=a=b"], "phone") == Some("a=b")
  {
    ArgValue(["--phone=a=b"], "phone", 0);
  }

  /** Only the first match counts, and a bare `--phone=` gives "" rather than null. */
  lemma ArgEmptyValue()
    ensures Arg(["--x", "--phone=", "--phone=1"], "phone") == Some("")
  {
    assert !StartsWith("--x", Flag("phone"));
    ArgValue(["--x", "--phone=", "--phone=1"], "phone", 1);
  }

  /** Which phone the script reads messages for. */
  datatype PhoneChoice = Given(phone: string) | FirstListed(phone: string) | NoNumbers

  /**
   A given phone is used when truthy; otherwise (absent or "") the first number of
   `listed`, the numbers `getNumbers` returns, or the error 'No numbers found'.
   */
  function ChoosePhone(argv: seq<string>, listed: seq<Listing.NumberRecord>): (r: PhoneChoice)
    ensures r.Given? <==> Arg(argv, "phone").Some? && Arg(argv, "phone").value != []
    ensures r.Given? ==> r.phone == Arg(argv, "phone").value
    ensures r.FirstListed? ==> |listed| > 0 && r.phone == listed[0].phone
    ensures r.NoNumbers? <==> !r.Given? && |listed| == 0
  {
    var given := Arg(argv, "phone");
    if given.Some? && given.value != [] then Given(given.value)
    else if |listed| == 0 then NoNumbers
    else FirstListed(listed[0].phone)
  }

  /** An empty `--phone=` counts as no phone: the script falls back to the list. */
  lemma EmptyPhoneFallsBack(listed: seq<Listing.NumberRecord>)
    requires |listed| > 0
    ensures ChoosePhone(["--phone="], listed) == FirstListed(listed[0].phone)
  {
    ArgValue(["--phone="], "phone", 0);
  }
}
