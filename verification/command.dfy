/** Argument vectors handed to external programs, and the reading a program
    gives them: the value of an option is the argument that follows its
    first occurrence. */
module CommandLine {
  import opened Wrappers

  /** The argument after the first occurrence of `flag`, if any. */
  function FlagValue(args: seq<string>, flag: string): (r: Option<string>)
    ensures r.Some? ==> exists k :: 0 <= k < |args| - 1 && args[k] == flag && args[k + 1] == r.value && flag !in args[..k]
    ensures r.None? ==> flag !in args[..if |args| == 0 then 0 else |args| - 1]
  {
    if |args| < 2 then None
    else if args[0] == flag then
      assert args[..0] == [];
      Some(args[1])
    else
      var r := FlagValue(args[1..], flag);
      assert forall k :: 0 <= k < |args| - 1 ==> args[1..][..k] == args[1..k + 1];
      assert args[..|args| - 1] == [args[0]] + args[1..][..|args| - 2];
      r
  }

  /** `flag` followed by `value` sits at position `k`, and `flag` does not occur before it. */
  lemma FlagValueAt(args: seq<string>, flag: string, k: nat, value: string)
    requires k + 1 < |args| && args[k] == flag && args[k + 1] == value
    requires flag !in args[..k]
    ensures FlagValue(args, flag) == Some(value)
  {
    assert args[..|args| - 1][k] == flag;
  }
}
