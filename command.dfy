/**
 * The command-line split at the start of execute (syscall.c): the program
 * name is the first run of non-space characters after any leading spaces,
 * and the argument string is what follows it with its own leading spaces
 * dropped; spaces inside and at the end of the arguments are kept.
 */
module Command {
  import opened Types
  import Lib

  /** `k` spaces. */
  function Spaces(k: nat): (r: seq<byte>)
    ensures |r| == k
    ensures forall i :: 0 <= i < k ==> r[i] == SPACE
  {
    seq(k, _ => SPACE)
  }

  /** The number of spaces `s` starts with. */
  function LeadingSpaces(s: seq<byte>): (k: nat)
    ensures k <= |s|
    ensures forall i :: 0 <= i < k ==> s[i] == SPACE
    ensures k < |s| ==> s[k] != SPACE
  {
    if |s| == 0 || s[0] != SPACE then 0 else 1 + LeadingSpaces(s[1..])
  }

  /** The length of the run of non-space characters `s` starts with. */
  function WordLen(s: seq<byte>): (k: nat)
    ensures k <= |s|
    ensures forall i :: 0 <= i < k ==> s[i] != SPACE
    ensures k < |s| ==> s[k] == SPACE
  {
    if |s| == 0 || s[0] == SPACE then 0 else 1 + WordLen(s[1..])
  }

  /** The two counts are determined by their defining properties. */
  lemma LeadingSpacesUnique(s: seq<byte>, k: nat)
    requires k <= |s| && (forall i :: 0 <= i < k ==> s[i] == SPACE) && (k < |s| ==> s[k] != SPACE)
    ensures LeadingSpaces(s) == k
  {
  }

  lemma WordLenUnique(s: seq<byte>, k: nat)
    requires k <= |s| && (forall i :: 0 <= i < k ==> s[i] != SPACE) && (k < |s| ==> s[k] == SPACE)
    ensures WordLen(s) == k
  {
  }

  /** The text of a string with one NUL appended is the string itself. */
  lemma CStringOfTerminated(t: seq<byte>)
    requires NUL !in t
    ensures Lib.CString(t + [NUL]) == t
  {
    var s := t + [NUL];
    var c := Lib.CString(s);
    assert c + [NUL] == s[..|c| + 1];
    assert s[|c|] == NUL;
    assert c == s[..|c|];
  }

  /** The program name of a command text: its first run of non-space characters. */
  function NameOf(t: seq<byte>): (name: seq<byte>)
    ensures SPACE !in name
    ensures forall c :: c in name ==> c in t
  {
    var rest := t[LeadingSpaces(t)..];
    rest[..WordLen(rest)]
  }

  /** The argument string of a command text: what follows the name, leading spaces dropped. */
  function ArgsOf(t: seq<byte>): (args: seq<byte>)
    ensures args == [] || args[0] != SPACE
    ensures forall c :: c in args ==> c in t
  {
    var rest := t[LeadingSpaces(t)..];
    var after := rest[WordLen(rest)..];
    after[LeadingSpaces(after)..]
  }

  /** The number of spaces between the program name and the argument string of a command text. */
  function GapOf(t: seq<byte>): nat
  {
    var rest := t[LeadingSpaces(t)..];
    LeadingSpaces(rest[WordLen(rest)..])
  }

  /** The program name of a NUL-terminated command line. */
  function ProgramName(command: seq<byte>): (name: seq<byte>)
    requires NUL in command
    ensures NUL !in name && SPACE !in name
  {
    NameOf(Lib.CString(command))
  }

  /** The argument string of a NUL-terminated command line. */
  function ArgString(command: seq<byte>): (args: seq<byte>)
    requires NUL in command
    ensures NUL !in args
  {
    ArgsOf(Lib.CString(command))
  }

  /** A string is its leading spaces followed by the rest. */
  lemma SpacesThenRest(s: seq<byte>)
    ensures s == Spaces(LeadingSpaces(s)) + s[LeadingSpaces(s)..]
  {
    var k := LeadingSpaces(s);
    assert s[..k] == Spaces(k);
    SplitAt(s, k);
  }

  lemma SplitAt(s: seq<byte>, k: nat)
    requires k <= |s|
    ensures s == s[..k] + s[k..]
  {
  }

  lemma Regroup(a: seq<byte>, b: seq<byte>, c: seq<byte>, d: seq<byte>)
    ensures a + (b + (c + d)) == a + b + c + d
  {
  }

  /**
   * A command text is its leading spaces, the program name, the spaces after
   * it and the argument string, in that order.
   */
  lemma LineParts(t: seq<byte>)
    ensures t == Spaces(LeadingSpaces(t)) + NameOf(t) + Spaces(GapOf(t)) + ArgsOf(t)
  {
    var rest := t[LeadingSpaces(t)..];
    var after := rest[WordLen(rest)..];
    SpacesThenRest(t);
    SplitAt(rest, WordLen(rest));
    SpacesThenRest(after);
    Assemble(Spaces(LeadingSpaces(t)), NameOf(t), Spaces(GapOf(t)), ArgsOf(t), t, rest, after);
  }

  /** Three splits put together. */
  lemma Assemble(a: seq<byte>, b: seq<byte>, c: seq<byte>, d: seq<byte>, t: seq<byte>, rest: seq<byte>, after: seq<byte>)
    requires t == a + rest && rest == b + after && after == c + d
    ensures t == a + b + c + d
  {
  }

  /**
   * The line is its leading spaces, the program name, the spaces after it and
   * the argument string, in that order. The name holds no space and no NUL,
   * and the argument string holds no NUL and does not start with a space.
   */
  lemma CommandParts(command: seq<byte>)
    requires NUL in command
    ensures var t := Lib.CString(command);
      t == Spaces(LeadingSpaces(t)) + ProgramName(command) + Spaces(GapOf(t)) + ArgString(command)
    ensures SPACE !in ProgramName(command) && NUL !in ProgramName(command) && NUL !in ArgString(command)
    ensures ArgString(command) == [] || ArgString(command)[0] != SPACE
  {
    LineParts(Lib.CString(command));
  }

  /** The program name is empty exactly when the text is all spaces, and then so is the argument string. */
  lemma BlankText(t: seq<byte>)
    ensures NameOf(t) == [] <==> forall i :: 0 <= i < |t| ==> t[i] == SPACE
    ensures NameOf(t) == [] ==> ArgsOf(t) == []
  {
    if NameOf(t) == [] {
      assert LeadingSpaces(t) == |t|;
    }
  }

  /** The program name is empty exactly when the line is all spaces, and then so is the argument string. */
  lemma BlankCommand(command: seq<byte>)
    requires NUL in command
    ensures ProgramName(command) == [] <==> forall i :: 0 <= i < |Lib.CString(command)| ==> Lib.CString(command)[i] == SPACE
    ensures ProgramName(command) == [] ==> ArgString(command) == []
  {
    BlankText(Lib.CString(command));
  }

  /**
   * Splitting undoes joining on a text: spaces, a name, at least one space
   * and an argument string that does not start with a space split back into
   * that name and that argument string.
   */
  lemma SplitOfJoinedText(p: nat, name: seq<byte>, q: nat, args: seq<byte>)
    requires name != [] && SPACE !in name
    requires args == [] || args[0] != SPACE
    requires args != [] ==> q >= 1
    ensures var t := Spaces(p) + name + Spaces(q) + args;
      NameOf(t) == name && ArgsOf(t) == args
  {
    var t := Spaces(p) + name + Spaces(q) + args;
    var after := Spaces(q) + args;
    var rest := name + after;
    Regroup(Spaces(p), name, Spaces(q), args);
    assert LeadingSpaces(t) == p && t[p..] == rest by {
      LeadingSpacesUnique(t, p);
    }
    assert WordLen(rest) == |name| && rest[|name|..] == after by {
      WordLenUnique(rest, |name|);
    }
    assert LeadingSpaces(after) == q && after[q..] == args by {
      LeadingSpacesUnique(after, q);
    }
  }

  /**
   * Splitting undoes joining: a line made of spaces, a name, at least one
   * space and an argument string that does not start with a space splits
   * back into that name and that argument string.
   */
  lemma SplitOfJoined(p: nat, name: seq<byte>, q: nat, args: seq<byte>)
    requires name != [] && SPACE !in name && NUL !in name
    requires NUL !in args && (args == [] || args[0] != SPACE)
    requires args != [] ==> q >= 1
    ensures var command := Spaces(p) + name + Spaces(q) + args + [NUL];
      ProgramName(command) == name && ArgString(command) == args
  {
    var t := Spaces(p) + name + Spaces(q) + args;
    assert NUL !in t by {
      Regroup(Spaces(p), name, Spaces(q), args);
    }
    CStringOfTerminated(t);
    SplitOfJoinedText(p, name, q, args);
  }

  /**
   * The first scanning loop of execute over the `strlen(command)` characters:
   * skips leading spaces, copies the name and stops at the space after it.
   */
  method ScanName(command: seq<byte>) returns (name: seq<byte>, i: nat)
    requires NUL in command
    ensures name == ProgramName(command)
    ensures var t := Lib.CString(command); i == LeadingSpaces(t) + |name| <= |t|
  {
    var len := Lib.Strlen(command);
    ghost var t := Lib.CString(command);
    assert t == command[..len];
    ghost var p := LeadingSpaces(t);
    i := 0;
    var inWord := false;
    name := [];
    while i < len
      invariant 0 <= i <= len
      invariant !inWord ==> i <= p && name == []
      invariant inWord ==> p < i && name == t[p..i] && forall k :: p <= k < i ==> t[k] != SPACE
    {
      if command[i] == SPACE && !inWord {
        i := i + 1;
        continue;
      } else if command[i] != SPACE && !inWord {
        assert t[i] == command[i];
        assert i == p;
        inWord := true;
        name := name + [command[i]];
      } else if command[i] != SPACE && inWord {
        assert t[i] == command[i];
        name := name + [command[i]];
      } else {
        break;
      }
      i := i + 1;
    }
    ghost var rest := t[p..];
    if inWord {
      WordLenUnique(rest, i - p);
    } else {
      assert p == len;
    }
  }

  /**
   * The second scanning loop of execute: from position `i` skips spaces,
   * then copies every remaining character, spaces included.
   */
  method ScanArgs(command: seq<byte>, i: nat) returns (args: seq<byte>)
    requires NUL in command && i <= |Lib.CString(command)|
    ensures var after := Lib.CString(command)[i..]; args == after[LeadingSpaces(after)..]
  {
    var len := Lib.Strlen(command);
    ghost var t := Lib.CString(command);
    assert t == command[..len];
    ghost var after := t[i..];
    ghost var q := LeadingSpaces(after);
    var j := i;
    var started := false;
    args := [];
    while j < len
      invariant i <= j <= len
      invariant !started ==> j <= i + q && args == []
      invariant started ==> i + q < j && args == t[i + q..j]
    {
      if command[j] == SPACE && !started {
        j := j + 1;
        continue;
      } else if command[j] != SPACE && !started {
        assert after[j - i] == t[j] == command[j];
        assert j == i + q;
        started := true;
        args := args + [command[j]];
      } else if started {
        assert t[j] == command[j];
        assert t[i + q..j + 1] == t[i + q..j] + [t[j]];
        args := args + [command[j]];
      }
      j := j + 1;
    }
    if !started {
      assert i + q == len;
    }
  }

  /** The command-line split of execute: both scanning loops in turn. */
  method SplitCommand(command: seq<byte>) returns (name: seq<byte>, args: seq<byte>)
    requires NUL in command
    ensures name == ProgramName(command) && args == ArgString(command)
  {
    var i;
    name, i := ScanName(command);
    args := ScanArgs(command, i);
    ghost var t := Lib.CString(command);
    ghost var rest := t[LeadingSpaces(t)..];
    assert rest[WordLen(rest)..] == t[i..];
  }
}
