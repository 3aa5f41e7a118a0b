/** `normalizeCommand` of src/index.ts: turns a command string into an argument
    vector by splitting on single spaces and gluing every backslash-terminated token
    to the tokens after it. */
module Normalize {
  import opened Text

  /** A token whose last character is a backslash continues into the next token.
      The empty token does not: `charAt(-1)` is the empty string. */
  predicate Continues(token: string) {
    |token| > 0 && token[|token| - 1] == '\\'
  }

  /** Reference definition of the grouping. Tokens are taken left to right;
      continuing tokens wait in `pending`, and the next token that does not continue
      closes the group, which becomes one argument: the group's tokens joined by
      single spaces. Whatever is still pending when the tokens run out is dropped. */
  function Group(tokens: seq<string>, pending: seq<string>): seq<string>
    decreases |tokens|
  {
    if |tokens| == 0 then []
    else if Continues(tokens[0]) then Group(tokens[1..], pending + [tokens[0]])
    else [Join(pending + [tokens[0]], " ")] + Group(tokens[1..], [])
  }

  /** The argument vector the reference definition gives for a command string. */
  function Arguments(command: string): seq<string> {
    Group(Split(command, ' '), [])
  }

  /** Number of tokens that do not continue: each of them closes one argument. */
  function Closers(tokens: seq<string>): (n: nat)
    ensures n <= |tokens|
  {
    if |tokens| == 0 then 0 else (if Continues(tokens[0]) then 0 else 1) + Closers(tokens[1..])
  }

  /** `normalizeCommand`, statement for statement: a buffer of continuing tokens that
      the next other token flushes as `buffer.join(' ') + ' ' + token`. */
  method NormalizeCommand(command: string) returns (outcmd: seq<string>)
    ensures outcmd == Arguments(command)
  {
    var cmd := Split(command, ' ');
    outcmd := [];
    var cmdbuffer: seq<string> := [];
    var i := 0;
    while i <= |cmd| - 1
      invariant 0 <= i <= |cmd|
      invariant outcmd + Group(cmd[i..], cmdbuffer) == Group(cmd, [])
    {
      assert cmd[i..][1..] == cmd[i + 1..];
      if Continues(cmd[i]) {
        cmdbuffer := cmdbuffer + [cmd[i]];
      } else {
        if |cmdbuffer| > 0 {
          JoinAppend(cmdbuffer, [cmd[i]], " ");
          outcmd := outcmd + [Join(cmdbuffer, " ") + " " + cmd[i]];
          cmdbuffer := [];
        } else {
          assert cmdbuffer + [cmd[i]] == [cmd[i]];
          outcmd := outcmd + [cmd[i]];
        }
      }
      i := i + 1;
    }
    assert cmd[i..] == [];
  }

  /** One argument per token that does not continue: never more arguments than tokens. */
  lemma {:induction false} GroupCount(tokens: seq<string>, pending: seq<string>)
    ensures |Group(tokens, pending)| == Closers(tokens)
    decreases |tokens|
  {
    if |tokens| > 0 {
      if Continues(tokens[0]) {
        GroupCount(tokens[1..], pending + [tokens[0]]);
      } else {
        GroupCount(tokens[1..], []);
      }
    }
  }

  /** Without continuing tokens, every token is its own argument. */
  lemma {:induction false} GroupPlain(tokens: seq<string>)
    requires forall k :: 0 <= k < |tokens| ==> !Continues(tokens[k])
    ensures Group(tokens, []) == tokens
    decreases |tokens|
  {
    if |tokens| > 0 {
      GroupPlain(tokens[1..]);
      assert [] + [tokens[0]] == [tokens[0]];
      assert tokens == [tokens[0]] + tokens[1..];
    }
  }

  /** A run of continuing tokens at the end contributes nothing: it is dropped. */
  lemma {:induction false} GroupDropsTrailing(tokens: seq<string>, tail: seq<string>, pending: seq<string>)
    requires forall k :: 0 <= k < |tail| ==> Continues(tail[k])
    ensures Group(tokens + tail, pending) == Group(tokens, pending)
    decreases |tokens| + |tail|
  {
    if |tokens| > 0 {
      var all := tokens + tail;
      assert all[0] == tokens[0] && all[1..] == tokens[1..] + tail;
      if Continues(tokens[0]) {
        GroupDropsTrailing(tokens[1..], tail, pending + [tokens[0]]);
      } else {
        GroupDropsTrailing(tokens[1..], tail, []);
      }
    } else if |tail| > 0 {
      assert tokens + tail == tail;
      assert tail[1..] + [] == tail[1..];
      GroupDropsTrailing([], tail[1..], pending + [tail[0]]);
      assert [] + tail[1..] == tail[1..];
    } else {
      assert tokens + tail == [];
    }
  }

  /** When the last token does not continue, joining the arguments with single spaces
      gives back the pending tokens and the input tokens joined with single spaces. */
  lemma {:induction false} GroupJoin(tokens: seq<string>, pending: seq<string>)
    requires |tokens| > 0 && !Continues(tokens[|tokens| - 1])
    ensures |Group(tokens, pending)| > 0
    ensures Join(Group(tokens, pending), " ") == Join(pending + tokens, " ")
    decreases |tokens|
  {
    var t, rest := tokens[0], tokens[1..];
    assert tokens == [t] + rest;
    if Continues(t) {
      GroupJoin(rest, pending + [t]);
      assert pending + [t] + rest == pending + tokens;
    } else if |rest| == 0 {
      assert pending + [t] == pending + tokens;
    } else {
      GroupJoin(rest, []);
      assert [] + rest == rest;
      var g := Group(rest, []);
      var x := Join(pending + [t], " ");
      assert ([x] + g)[1..] == g;
      assert Join([x] + g, " ") == x + " " + Join(g, " ");
      JoinAppend(pending + [t], rest, " ");
      assert pending + [t] + rest == pending + tokens;
    }
  }

  /** With no backslash-terminated token, the arguments are exactly the
      space-separated pieces of the command. */
  lemma {:induction false} ArgumentsPlain(command: string)
    requires forall k :: 0 <= k < |Split(command, ' ')| ==> !Continues(Split(command, ' ')[k])
    ensures Arguments(command) == Split(command, ' ')
  {
    GroupPlain(Split(command, ' '));
  }

  /** There are never more arguments than space-separated tokens. */
  lemma ArgumentsCount(command: string)
    ensures |Arguments(command)| <= |Split(command, ' ')|
  {
    GroupCount(Split(command, ' '), []);
  }

  /** When the last token does not end in a backslash, joining the arguments with
      single spaces reproduces the command. */
  lemma {:induction false} ArgumentsRoundTrip(command: string)
    requires !Continues(Split(command, ' ')[|Split(command, ' ')| - 1])
    ensures Join(Arguments(command), " ") == command
  {
    var tokens := Split(command, ' ');
    assert Join(Group(tokens, []), " ") == Join(tokens, " ") by {
      GroupJoin(tokens, []);
      assert [] + tokens == tokens;
    }
    assert Join(tokens, " ") == command by {
      JoinSplit(command, ' ');
      assert [' '] == " ";
    }
  }
}
