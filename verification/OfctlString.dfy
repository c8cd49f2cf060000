/**
 The ovs-ofctl action strings of `ofctl_string.py`: the tokenizer of an argument list, the split of a
 string into actions, and the recursion through `ct(...,exec(...))`.
 */
module OfctlString {
  import opened Wrappers

  // ---------------------------------------------------------------- characters and depth

  predicate PlainChar(c: char) {
    c != ',' && c != '(' && c != ')'
  }

  predicate Plain(s: string) {
    forall i :: 0 <= i < |s| ==> PlainChar(s[i])
  }

  /** How many parentheses are open at the end. */
  function Depth(s: string): int {
    if s == [] then 0
    else Depth(s[..|s| - 1]) + (if s[|s| - 1] == '(' then 1 else if s[|s| - 1] == ')' then -1 else 0)
  }

  lemma DepthStep(s: string, i: nat)
    requires i < |s|
    ensures Depth(s[..i + 1]) == Depth(s[..i]) + (if s[i] == '(' then 1 else if s[i] == ')' then -1 else 0)
  {
    assert s[..i + 1][..i] == s[..i];
  }

  lemma {:induction false} DepthPlain(s: string)
    requires Plain(s)
    ensures Depth(s) == 0
  {
    if s != [] {
      DepthPlain(s[..|s| - 1]);
    }
  }

  // ---------------------------------------------------------------- the tokenizer

  /** The end of the longest run of plain characters from `pos`. */
  function PlainEnd(s: string, pos: nat): (e: nat)
    requires pos <= |s|
    ensures pos <= e <= |s|
    ensures forall i :: pos <= i < e ==> PlainChar(s[i])
    ensures e < |s| ==> !PlainChar(s[e])
    decreases |s| - pos
  {
    if pos == |s| || !PlainChar(s[pos]) then pos else PlainEnd(s, pos + 1)
  }

  /** `_tokenize_paren_block`: the position after the parenthesis that closes `level` open ones. */
  function Close(s: string, pos: nat, level: nat): (e: Option<nat>)
    requires pos <= |s|
    ensures e.Some? ==> pos <= e.value <= |s| && (level > 0 ==> pos < e.value)
    decreases |s| - pos
  {
    if level == 0 then Some(pos)
    else if pos == |s| then None
    else if s[pos] == '(' then Close(s, pos + 1, level + 1)
    else if s[pos] == ')' then Close(s, pos + 1, level - 1)
    else Close(s, pos + 1, level)
  }

  /** The length of the token at the start of the rest; a closing parenthesis starts none. */
  function FirstToken(rest: string): (n: Option<nat>)
    ensures n.Some? ==> n.value <= |rest|
  {
    var e := PlainEnd(rest, 0);
    if e == |rest| || rest[e] == ',' then Some(e)
    else if rest[e] == '(' then Close(rest, e + 1, 1)
    else None
  }

  /** `tokenize_ofp_instruction_arg`; `None` stands for `OFPInvalidActionString`. */
  function Tokenize(rest: string): (r: Option<seq<string>>)
    ensures r.Some? ==> forall t :: t in r.value ==> |t| <= |rest|
  {
    if rest == [] then Some([])
    else match FirstToken(rest)
      case None => None
      case Some(n) =>
        if n == |rest| then Some([rest])
        else if rest[n] != ',' then None
        else match Tokenize(rest[n + 1..])
          case None => None
          case Some(tokens) => Some([rest[..n]] + tokens)
  }

  // ---------------------------------------------------------------- what a token is

  /** A block: plain characters, then one pair of parentheses that closes at the very end. */
  ghost predicate IsBlock(t: string) {
    exists i: nat :: BlockAt(t, i)
  }

  ghost predicate BlockAt(t: string, i: nat) {
    && i < |t| && Plain(t[..i]) && t[i] == '('
    && Depth(t) == 0
    && forall j :: i < j < |t| ==> Depth(t[..j]) > 0
  }

  ghost predicate IsToken(t: string) {
    Plain(t) || IsBlock(t)
  }

  ghost predicate AreTokens(ts: seq<string>) {
    forall t :: t in ts ==> IsToken(t)
  }

  /** A token is balanced and has no comma outside parentheses. */
  lemma TokenIsBalanced(t: string, j: nat)
    requires IsToken(t) && j < |t|
    ensures Depth(t) == 0
    ensures Depth(t[..j]) >= 0
    ensures t[j] == ',' ==> Depth(t[..j]) > 0
  {
    if Plain(t) {
      DepthPlain(t);
      DepthPlain(t[..j]);
    } else {
      var i: nat :| BlockAt(t, i);
      if j <= i {
        DepthPlain(t[..j]);
        if j < i {
          assert t[..i][j] == t[j];
        }
      }
    }
  }

  lemma {:induction false} CloseFinds(s: string, pos: nat, level: nat, e: nat)
    requires pos <= e <= |s|
    ensures Close(s, pos, level) == Some(e) <==>
      Depth(s[..e]) == Depth(s[..pos]) - level
      && forall j :: pos <= j < e ==> Depth(s[..j]) > Depth(s[..pos]) - level
    decreases |s| - pos
  {
    if level > 0 && pos < |s| {
      DepthStep(s, pos);
      var next := level + Depth(s[..pos + 1]) - Depth(s[..pos]);
      if pos < e {
        CloseFinds(s, pos + 1, next, e);
      } else {
        assert Close(s, pos, level) != Some(e);
      }
    }
  }

  lemma PrefixStays(t: string, tail: string, j: nat)
    requires j <= |t|
    ensures (t + tail)[..j] == t[..j]
  {
  }

  lemma FirstTokenIsToken(rest: string, n: nat)
    requires FirstToken(rest) == Some(n)
    ensures IsToken(rest[..n])
  {
    var e := PlainEnd(rest, 0);
    if e < |rest| && rest[e] == '(' {
      var t := rest[..n];
      CloseFinds(rest, e + 1, 1, n);
      DepthStep(rest, e);
      DepthPlain(rest[..e]);
      assert t[..e] == rest[..e];
      forall j | e < j < |t|
        ensures Depth(t[..j]) > 0
      {
        assert t[..j] == rest[..j];
      }
      assert BlockAt(t, e);
    }
  }

  lemma TokenIsFirst(t: string, tail: string)
    requires IsToken(t) && (tail == [] || tail[0] == ',')
    ensures FirstToken(t + tail) == Some(|t|)
  {
    if Plain(t) {
      PlainPrefix(t + tail, 0, |t|);
    } else {
      var i: nat :| BlockAt(t, i);
      BlockIsFirst(t, tail, i);
    }
  }

  lemma BlockIsFirst(t: string, tail: string, i: nat)
    requires BlockAt(t, i)
    ensures FirstToken(t + tail) == Some(|t|)
  {
    var rest := t + tail;
    assert forall k :: 0 <= k < i ==> rest[k] == t[..i][k];
    PlainPrefix(rest, 0, i);
    DepthPlain(t[..i]);
    DepthStep(rest, i);
    PrefixStays(t, tail, i);
    PrefixStays(t, tail, |t|);
    assert t[..|t|] == t;
    forall j | i < j < |t|
      ensures Depth(rest[..j]) > 0
    {
      PrefixStays(t, tail, j);
    }
    CloseFinds(rest, i + 1, 1, |t|);
  }

  lemma {:induction false} PlainPrefix(s: string, pos: nat, e: nat)
    requires pos <= e <= |s| && (forall k :: pos <= k < e ==> PlainChar(s[k])) && (e < |s| ==> !PlainChar(s[e]))
    ensures PlainEnd(s, pos) == e
    decreases e - pos
  {
    if pos < e {
      PlainPrefix(s, pos + 1, e);
    }
  }

  // ---------------------------------------------------------------- split and join

  function Join(ts: seq<string>): string {
    if ts == [] then ""
    else if |ts| == 1 then ts[0]
    else ts[0] + "," + Join(ts[1..])
  }

  lemma CutAt(t: string, tail: string)
    ensures var all := t + ("," + tail);
      all[..|t|] == t && all[|t|] == ',' && all[|t| + 1..] == tail
  {
  }

  lemma Reassemble(arg: string, n: nat)
    requires n < |arg| && arg[n] == ','
    ensures arg == arg[..n] + ("," + arg[n + 1..])
  {
  }

  lemma Assoc(a: string, b: string, c: string)
    ensures (a + b) + c == a + (b + c)
  {
  }

  function Prepend(t: string, more: Option<seq<string>>): Option<seq<string>> {
    if more.None? then None else Some([t] + more.value)
  }

  lemma TokenizeCons(t: string, tail: string)
    requires IsToken(t)
    ensures Tokenize(t + ("," + tail)) == Prepend(t, Tokenize(tail))
  {
    CutAt(t, tail);
    TokenIsFirst(t, "," + tail);
  }

  lemma TokenizeLast(t: string)
    requires IsToken(t) && t != []
    ensures Tokenize(t) == Some([t])
  {
    assert t + [] == t;
    TokenIsFirst(t, []);
  }

  lemma JoinCons(t: string, ts: seq<string>)
    requires ts != []
    ensures Join([t] + ts) == t + ("," + Join(ts))
  {
    assert ([t] + ts)[1..] == ts;
  }

  /** A comma at the end of an argument is dropped. */
  function LastComma(arg: string): string {
    if arg != [] && arg[|arg| - 1] == ',' then "," else ""
  }

  /**
   The tokens of an accepted argument, joined by commas, give it back, up to one comma at its end;
   each of them is a token.
   */
  lemma {:induction false} TokensJoin(arg: string)
    requires Tokenize(arg).Some?
    ensures AreTokens(Tokenize(arg).value)
    ensures arg == Join(Tokenize(arg).value) + LastComma(arg)
  {
    if arg != [] {
      var n := FirstToken(arg).value;
      FirstTokenIsToken(arg, n);
      if n == |arg| {
        assert arg[..n] == arg;
        TokenEnd(arg);
        assert arg + "" == arg;
      } else {
        var t, tail := arg[..n], arg[n + 1..];
        TokensJoin(tail);
        Reassemble(arg, n);
        TokensJoinStep(t, tail, Tokenize(tail).value);
      }
    }
  }

  lemma TokensJoinStep(t: string, tail: string, ts: seq<string>)
    requires tail == Join(ts) + LastComma(tail) && (tail == [] <==> ts == [])
    ensures t + ("," + tail) == Join([t] + ts) + LastComma(t + ("," + tail))
  {
    if tail == [] {
      assert [t] + ts == [t];
    } else {
      JoinCons(t, ts);
      assert LastComma(t + ("," + tail)) == LastComma(tail);
      Assoc(t, "," + Join(ts), LastComma(tail));
      Assoc(",", Join(ts), LastComma(tail));
    }
  }

  /** No token ends in a comma. */
  lemma TokenEnd(t: string)
    requires IsToken(t) && t != []
    ensures t[|t| - 1] != ','
  {
    TokenIsBalanced(t, |t| - 1);
    DepthStep(t, |t| - 1);
    assert t[..|t| - 1 + 1] == t;
  }

  /** Any tokens at all, with a comma after the last, are found again. */
  lemma {:induction false} TokensFoundWithComma(ts: seq<string>)
    requires AreTokens(ts) && ts != []
    ensures Tokenize(Join(ts) + ",") == Some(ts)
  {
    var t := ts[0];
    assert t in ts && ts == [t] + ts[1..];
    if |ts| == 1 {
      TokenizeCons(t, "");
      assert Join(ts) + "," == t + ("," + "");
      assert ts == [t] + [];
    } else {
      TokensFoundWithComma(ts[1..]);
      JoinCons(t, ts[1..]);
      Assoc(t, "," + Join(ts[1..]), ",");
      Assoc(",", Join(ts[1..]), ",");
      TokenizeCons(t, Join(ts[1..]) + ",");
    }
  }

  /** Joined without a comma at the end, tokens are found again exactly when the last is not empty. */
  lemma {:induction false} TokensFound(ts: seq<string>)
    requires AreTokens(ts) && ts != []
    ensures Tokenize(Join(ts)) == Some(ts) <==> ts[|ts| - 1] != ""
  {
    var t := ts[0];
    assert t in ts && ts == [t] + ts[1..];
    if |ts| == 1 {
      assert ts == [t] && Join(ts) == t;
      OneTokenFound(t);
    } else {
      TokensFound(ts[1..]);
      OneMoreFound(t, ts[1..]);
    }
  }

  lemma OneMoreFound(t: string, more: seq<string>)
    requires IsToken(t) && more != []
    ensures Tokenize(Join([t] + more)) == Some([t] + more) <==> Tokenize(Join(more)) == Some(more)
  {
    JoinCons(t, more);
    TokenizeCons(t, Join(more));
    PrependIs(t, Tokenize(Join(more)), more);
  }

  lemma OneTokenFound(t: string)
    requires IsToken(t)
    ensures Tokenize(t) == Some([t]) <==> t != ""
  {
    if t != [] {
      TokenizeLast(t);
    } else {
      var none: seq<string> := [];
      assert Tokenize(t) == Some(none) && none != [t];
    }
  }

  lemma PrependIs(t: string, more: Option<seq<string>>, ts: seq<string>)
    ensures Prepend(t, more) == Some([t] + ts) <==> more == Some(ts)
  {
    if more.Some? {
      assert ([t] + more.value)[1..] == more.value && ([t] + ts)[1..] == ts;
    }
  }

  /** So the accepted arguments are the joined lists of tokens, with or without a last comma. */
  lemma AcceptedExactly(arg: string)
    ensures Tokenize(arg).Some? <==>
      exists ts :: AreTokens(ts) && (arg == Join(ts) || (ts != [] && arg == Join(ts) + ","))
  {
    if Tokenize(arg).Some? {
      TokensJoin(arg);
      var ts := Tokenize(arg).value;
      assert LastComma(arg) == "" ==> arg == Join(ts);
      assert AreTokens(ts);
    }
    if ts :| AreTokens(ts) && (arg == Join(ts) || (ts != [] && arg == Join(ts) + ",")) {
      if arg == Join(ts) {
        JoinAccepted(ts);
      } else {
        TokensFoundWithComma(ts);
      }
    }
  }

  lemma {:induction false} JoinAccepted(ts: seq<string>)
    requires AreTokens(ts)
    ensures Tokenize(Join(ts)).Some?
  {
    if ts != [] {
      var t := ts[0];
      assert t in ts && ts == [t] + ts[1..];
      if |ts| == 1 {
        if t != [] {
          TokenizeLast(t);
        }
      } else {
        JoinAccepted(ts[1..]);
        JoinCons(t, ts[1..]);
        TokenizeCons(t, Join(ts[1..]));
      }
    }
  }

  /** The loop, shrinking the rest and appending to the result. */
  method TokenizeOfpInstructionArg(arg: string) returns (result: Option<seq<string>>)
    ensures result == Tokenize(arg)
  {
    var rest := arg;
    var tokens: seq<string> := [];
    FollowNone(Tokenize(arg));
    while |rest| > 0
      invariant Tokenize(arg) == Follow(tokens, Tokenize(rest))
      decreases |rest|
    {
      ghost var was := rest;
      var end := PlainEnd(rest, 0);
      if end == |rest| {
        return Some(tokens + [rest]);
      }
      var thisBlock: string;
      if rest[end] == '(' {
        var close := Close(rest, end + 1, 1);
        if close == None {
          return None;
        }
        thisBlock, rest := rest[..close.value], rest[close.value..];
      } else if rest[end] == ',' {
        thisBlock, rest := rest[..end], rest[end..];
      } else {
        return None;
      }
      if |rest| > 0 {
        if rest[0] != ',' {
          return None;
        }
        rest := rest[1..];
      }
      TokenizeOne(was, thisBlock, rest);
      FollowOne(tokens, thisBlock, Tokenize(rest));
      tokens := tokens + [thisBlock];
    }
    assert tokens + [] == tokens;
    return Some(tokens);
  }

  function Follow(tokens: seq<string>, more: Option<seq<string>>): Option<seq<string>> {
    if more.None? then None else Some(tokens + more.value)
  }

  lemma FollowNone(more: Option<seq<string>>)
    ensures Follow([], more) == more
  {
    if more.Some? {
      assert [] + more.value == more.value;
    }
  }

  lemma FollowOne(tokens: seq<string>, t: string, more: Option<seq<string>>)
    ensures Follow(tokens, Prepend(t, more)) == Follow(tokens + [t], more)
  {
    if more.Some? {
      assert tokens + ([t] + more.value) == (tokens + [t]) + more.value;
    }
  }

  lemma TokenizeOne(was: string, t: string, rest: string)
    requires was != [] && FirstToken(was) == Some(|t|) && was[..|t|] == t
    requires if |t| == |was| then rest == [] else was[|t|] == ',' && rest == was[|t| + 1..]
    ensures Tokenize(was) == Prepend(t, Tokenize(rest))
  {
    if |t| == |was| {
      assert was == t && [t] + [] == [t];
    }
  }

  // ---------------------------------------------------------------- the split into actions

  predicate NameChar(c: char) {
    'a' <= c <= 'z' || c == '_'
  }

  /** `[a-z_]+`, as far as it goes. */
  function NameEnd(s: string, pos: nat): (e: nat)
    requires pos <= |s|
    ensures pos <= e <= |s|
    ensures forall i :: pos <= i < e ==> NameChar(s[i])
    ensures e < |s| ==> !NameChar(s[e])
    decreases |s| - pos
  {
    if pos == |s| || !NameChar(s[pos]) then pos else NameEnd(s, pos + 1)
  }

  /** The first closing parenthesis from `pos`. */
  function FindClose(s: string, pos: nat): (e: Option<nat>)
    requires pos <= |s|
    ensures e.Some? ==> pos <= e.value < |s| && s[e.value] == ')'
    ensures forall i :: pos <= i < (if e.Some? then e.value else |s|) ==> s[i] != ')'
    decreases |s| - pos
  {
    if pos == |s| then None else if s[pos] == ')' then Some(pos) else FindClose(s, pos + 1)
  }

  /**
   The repeated group of the expression: `(...)` up to the first closing parenthesis, or a run that
   starts with none of the name's characters. Neither choice ever has to be taken back.
   */
  function GroupEnd(s: string, pos: nat): (e: nat)
    requires pos <= |s|
    ensures pos <= e <= |s|
    decreases |s| - pos
  {
    if pos == |s| then pos
    else if s[pos] == '(' then
      var c := FindClose(s, pos + 1);
      if c.Some? then GroupEnd(s, c.value + 1) else pos
    else if PlainChar(s[pos]) && !NameChar(s[pos]) then GroupEnd(s, PlainEnd(s, pos + 1))
    else pos
  }

  datatype Split = Split(name: string, text: string, rest: string)

  /** The end of the first action, parentheses balanced. */
  function ActionEnd(s: string): (e: Option<nat>)
    ensures e.Some? ==> 0 < e.value <= |s|
  {
    var n := NameEnd(s, 0);
    if n == 0 then None
    else
      var m := GroupEnd(s, n);
      var level := Depth(s[..m]);
      if level > 0 then Close(s, m, level) else Some(m)
  }

  /** One turn of `ofp_instruction_from_str`: the first action, and what follows its comma. */
  function FirstAction(s: string): (r: Option<Split>)
    ensures r.Some? ==> |r.value.rest| < |s| && |r.value.text| <= |s|
  {
    match ActionEnd(s)
    case None => None
    case Some(e) =>
      if e < |s| && s[e] != ',' then None
      else Some(Split(s[..NameEnd(s, 0)], s[..e], if e == |s| then "" else s[e + 1..]))
  }

  lemma {:induction false} GroupDepth(s: string, pos: nat)
    requires pos <= |s|
    ensures Depth(s[..GroupEnd(s, pos)]) >= Depth(s[..pos])
    decreases |s| - pos
  {
    var next := GroupDepthStep(s, pos);
    if next.Some? {
      GroupDepth(s, next.value);
    }
  }

  lemma GroupDepthStep(s: string, pos: nat) returns (next: Option<nat>)
    requires pos <= |s|
    ensures next.None? ==> GroupEnd(s, pos) == pos
    ensures next.Some? ==> pos < next.value <= |s| && GroupEnd(s, pos) == GroupEnd(s, next.value)
    ensures next.Some? ==> Depth(s[..next.value]) >= Depth(s[..pos])
  {
    next := None;
    if pos < |s| && s[pos] == '(' {
      var c := FindClose(s, pos + 1);
      if c.Some? {
        BlockDepth(s, pos, c.value);
        next := Some(c.value + 1);
      }
    } else if pos < |s| && PlainChar(s[pos]) && !NameChar(s[pos]) {
      var e := PlainEnd(s, pos + 1);
      NoCloseDepth(s, pos, e);
      next := Some(e);
    }
  }

  lemma BlockDepth(s: string, pos: nat, c: nat)
    requires pos < |s| && s[pos] == '(' && FindClose(s, pos + 1) == Some(c)
    ensures Depth(s[..c + 1]) >= Depth(s[..pos])
  {
    DepthStep(s, pos);
    NoCloseDepth(s, pos + 1, c);
    DepthStep(s, c);
  }

  lemma {:induction false} NoCloseDepth(s: string, pos: nat, e: nat)
    requires pos <= e <= |s| && forall i :: pos <= i < e ==> s[i] != ')'
    ensures Depth(s[..e]) >= Depth(s[..pos])
    decreases e - pos
  {
    if pos < e {
      NoCloseDepth(s, pos, e - 1);
      DepthStep(s, e - 1);
    }
  }

  /** The assertion that the match closes no more parentheses than it opens always holds. */
  lemma ParenLevelIsNatural(s: string)
    ensures Depth(s[..GroupEnd(s, NameEnd(s, 0))]) >= 0
  {
    GroupDepth(s, NameEnd(s, 0));
    NoCloseDepth(s, 0, NameEnd(s, 0));
  }

  /** Each action is a name and more, balanced. */
  lemma ActionIsBalanced(s: string)
    requires FirstAction(s).Some?
    ensures var a := FirstAction(s).value;
      a.name != "" && a.name <= a.text && Depth(a.text) == 0
  {
    ParenLevelIsNatural(s);
    var m := GroupEnd(s, NameEnd(s, 0));
    var level := Depth(s[..m]);
    if level > 0 {
      CloseFinds(s, m, level, ActionEnd(s).value);
    }
  }

  /** The texts of the actions, in order. */
  function Texts(s: string): Option<seq<string>>
    decreases |s|
  {
    if s == [] then Some([])
    else match FirstAction(s)
      case None => None
      case Some(a) => Prepend(a.text, Texts(a.rest))
  }

  /** An action: the loop takes all of it at once. */
  predicate IsAction(t: string) {
    ActionEnd(t) == Some(|t|)
  }

  predicate AreActions(ts: seq<string>) {
    forall t :: t in ts ==> IsAction(t)
  }

  /** `all` goes on after `t` with a comma. */
  predicate Continues(t: string, all: string) {
    t <= all && |t| < |all| && all[|t|] == ','
  }

  lemma {:induction false} NameStays(t: string, all: string, pos: nat)
    requires Continues(t, all) && pos <= |t|
    ensures NameEnd(all, pos) == NameEnd(t, pos)
    decreases |t| - pos
  {
    if pos < |t| && NameChar(t[pos]) {
      NameStays(t, all, pos + 1);
    }
  }

  lemma {:induction false} PlainStays(t: string, all: string, pos: nat)
    requires Continues(t, all) && pos <= |t|
    ensures PlainEnd(all, pos) == PlainEnd(t, pos)
    decreases |t| - pos
  {
    if pos < |t| && PlainChar(t[pos]) {
      PlainStays(t, all, pos + 1);
    }
  }

  lemma {:induction false} FindCloseStays(t: string, all: string, pos: nat)
    requires Continues(t, all) && pos <= |t| && FindClose(t, pos).Some?
    ensures FindClose(all, pos) == FindClose(t, pos)
    decreases |t| - pos
  {
    if t[pos] != ')' {
      FindCloseStays(t, all, pos + 1);
    }
  }

  /** The group stopped at a parenthesis that nothing closes. */
  predicate StuckAt(t: string, q: nat) {
    q < |t| && t[q] == '(' && FindClose(t, q + 1) == None
  }

  lemma {:induction false} GroupStays(t: string, all: string, pos: nat)
    requires Continues(t, all) && pos <= |t|
    ensures GroupEnd(all, pos) == GroupEnd(t, pos) || StuckAt(t, GroupEnd(t, pos))
    decreases |t| - pos
  {
    var next := GroupStaysStep(t, all, pos);
    if next.Some? {
      GroupStays(t, all, next.value);
    }
  }

  lemma GroupStaysStep(t: string, all: string, pos: nat) returns (next: Option<nat>)
    requires Continues(t, all) && pos <= |t|
    ensures next.None? ==> GroupEnd(all, pos) == GroupEnd(t, pos) || StuckAt(t, GroupEnd(t, pos))
    ensures next.Some? ==> pos < next.value <= |t|
    ensures next.Some? ==>
      GroupEnd(t, pos) == GroupEnd(t, next.value) && GroupEnd(all, pos) == GroupEnd(all, next.value)
  {
    if pos == |t| {
      next := None;
    } else if t[pos] == '(' {
      GroupStaysBlock(t, all, pos);
      var c := FindClose(t, pos + 1);
      next := if c.Some? then Some(c.value + 1) else None;
    } else if PlainChar(t[pos]) && !NameChar(t[pos]) {
      GroupStaysPlain(t, all, pos);
      next := Some(PlainEnd(t, pos + 1));
    } else {
      next := None;
    }
  }

  lemma GroupStaysBlock(t: string, all: string, pos: nat)
    requires Continues(t, all) && pos < |t| && t[pos] == '('
    ensures var c := FindClose(t, pos + 1);
      if c.Some? then GroupEnd(t, pos) == GroupEnd(t, c.value + 1) && GroupEnd(all, pos) == GroupEnd(all, c.value + 1)
      else GroupEnd(t, pos) == pos
  {
    if FindClose(t, pos + 1).Some? {
      FindCloseStays(t, all, pos + 1);
    }
  }

  lemma GroupStaysPlain(t: string, all: string, pos: nat)
    requires Continues(t, all) && pos < |t| && PlainChar(t[pos]) && !NameChar(t[pos])
    ensures GroupEnd(t, pos) == GroupEnd(t, PlainEnd(t, pos + 1))
    ensures GroupEnd(all, pos) == GroupEnd(all, PlainEnd(t, pos + 1))
  {
    PlainStays(t, all, pos + 1);
  }

  lemma {:induction false} CloseEndsAtClose(s: string, pos: nat, level: nat)
    requires pos <= |s| && level > 0 && Close(s, pos, level).Some?
    ensures s[Close(s, pos, level).value - 1] == ')'
    decreases |s| - pos
  {
    var next: nat := if s[pos] == '(' then level + 1 else if s[pos] == ')' then level - 1 else level;
    if next > 0 {
      CloseEndsAtClose(s, pos + 1, next);
    }
  }

  lemma ActionNotStuck(t: string)
    requires IsAction(t)
    ensures !StuckAt(t, GroupEnd(t, NameEnd(t, 0)))
  {
    var q := GroupEnd(t, NameEnd(t, 0));
    if Depth(t[..q]) > 0 {
      CloseEndsAtClose(t, q, Depth(t[..q]));
    }
  }

  lemma CloseStays(t: string, all: string, pos: nat, level: nat)
    requires Continues(t, all) && pos <= |t| && Close(t, pos, level) == Some(|t|)
    ensures Close(all, pos, level) == Some(|t|)
  {
    CloseFinds(t, pos, level, |t|);
    assert all[..|t|] == t[..|t|] && all[..pos] == t[..pos];
    forall j | pos <= j < |t|
      ensures Depth(all[..j]) > Depth(all[..pos]) - level
    {
      assert all[..j] == t[..j];
    }
    CloseFinds(all, pos, level, |t|);
  }

  lemma ActionStays(t: string, all: string)
    requires IsAction(t) && Continues(t, all)
    ensures ActionEnd(all) == Some(|t|) && NameEnd(all, 0) == NameEnd(t, 0)
  {
    NameStays(t, all, 0);
    ActionNotStuck(t);
    GroupStays(t, all, NameEnd(t, 0));
    var m := GroupEnd(t, NameEnd(t, 0));
    assert all[..m] == t[..m];
    if Depth(t[..m]) > 0 {
      CloseStays(t, all, m, Depth(t[..m]));
    }
  }

  lemma FirstActionCons(t: string, tail: string)
    requires IsAction(t)
    ensures FirstAction(t + ("," + tail)) == Some(Split(t[..NameEnd(t, 0)], t, tail))
  {
    var all, n := t + ("," + tail), NameEnd(t, 0);
    CutAt(t, tail);
    ActionStays(t, all);
    PrefixStays(t, "," + tail, n);
    assert FirstAction(all) == Some(Split(all[..n], all[..|t|], all[|t| + 1..]));
  }

  lemma TextsCons(t: string, tail: string)
    requires IsAction(t)
    ensures Texts(t + ("," + tail)) == Prepend(t, Texts(tail))
  {
    FirstActionCons(t, tail);
    assert t + ("," + tail) != [];
  }

  /** Actions joined by commas are split into those actions again. */
  lemma {:induction false} ActionsFound(ts: seq<string>)
    requires AreActions(ts)
    ensures Texts(Join(ts)) == Some(ts)
  {
    if ts != [] {
      var t := ts[0];
      assert t in ts && ts == [t] + ts[1..];
      if |ts| == 1 {
        assert t[..|t|] == t && [t] + [] == [t];
      } else {
        ActionsFound(ts[1..]);
        JoinCons(t, ts[1..]);
        TextsCons(t, Join(ts[1..]));
      }
    }
  }

  /** The actions of a string that splits, joined by commas, give it back, up to one comma at its end. */
  lemma {:induction false} ActionsJoin(s: string)
    requires Texts(s).Some?
    ensures s == Join(Texts(s).value) || s == Join(Texts(s).value) + ","
    decreases |s|
  {
    if s != [] {
      var a := FirstAction(s).value;
      ActionsJoin(a.rest);
      var ts := Texts(a.rest).value;
      if |a.text| == |s| {
        assert a.text == s && [a.text] + ts == [a.text];
      } else {
        Reassemble(s, |a.text|);
        if ts == [] {
          assert [a.text] + ts == [a.text];
          NoTexts(a.rest);
        } else {
          JoinCons(a.text, ts);
          Assoc(a.text, "," + Join(ts), ",");
          Assoc(",", Join(ts), ",");
        }
      }
    }
  }

  lemma NoTexts(s: string)
    requires Texts(s) == Some([])
    ensures s == []
  {
  }

  // ---------------------------------------------------------------- what an action is

  /** Lower-case letters and underscores. */
  predicate IsName(name: string) {
    name != "" && forall i :: 0 <= i < |name| ==> 'a' <= name[i] <= 'z' || name[i] == '_'
  }

  /** No commas and no parentheses. */
  predicate IsText(text: string) {
    forall i :: 0 <= i < |text| ==> text[i] !in {',', '(', ')'}
  }

  /** Such a text is one token. */
  lemma TextIsToken(text: string)
    requires IsText(text) && text != ""
    ensures IsToken(text) && Tokenize(text) == Some([text])
  {
    assert Plain(text);
    TokenizeLast(text);
  }

  lemma {:induction false} NameIsWhole(name: string, t: string, pos: nat)
    requires IsName(name) && name <= t && pos <= |name|
    requires |name| < |t| ==> !('a' <= t[|name|] <= 'z') && t[|name|] != '_'
    ensures NameEnd(t, pos) == |name|
    decreases |name| - pos
  {
    if pos < |name| {
      assert t[pos] == name[pos];
      NameIsWhole(name, t, pos + 1);
    }
  }

  /** A name alone is an action, and a name with plain text after it that no letter begins. */
  lemma PlainIsAction(name: string, text: string)
    requires IsName(name) && IsText(text)
    requires text != "" ==> !('a' <= text[0] <= 'z') && text[0] != '_'
    ensures IsAction(name + text) && NameOf(name + text) == name
  {
    var t := name + text;
    NameIsWhole(name, t, 0);
    assert t[..|name|] == name && t[|name|..] == text;
    assert forall k :: 0 <= k < |t| ==> t[k] == if k < |name| then name[k] else text[k - |name|];
    if text != "" {
      PlainPrefix(t, |name| + 1, |t|);
      assert GroupEnd(t, |t|) == |t|;
    }
    DepthPlain(t);
    assert t[..|t|] == t;
  }

  /** So is a name with one pair of parentheses after it, whatever balanced text they hold. */
  lemma BlockIsAction(name: string, t: string)
    requires IsName(name) && name <= t && BlockAt(t, |name|)
    ensures IsAction(t) && NameOf(t) == name
  {
    NameIsWhole(name, t, 0);
    DepthPlain(t[..|name|]);
    DepthStep(t, |name|);
    assert t[..|t|] == t;
    LastCloses(t, |name|);
    BlockGroup(t, |name|);
    var m := GroupEnd(t, |name|);
    if m < |t| {
      CloseFinds(t, m, Depth(t[..m]), |t|);
    }
  }

  /** A block ends with a closing parenthesis. */
  lemma LastCloses(t: string, i: nat)
    requires BlockAt(t, i)
    ensures |t| >= i + 2 && t[|t| - 1] == ')'
  {
    DepthPlain(t[..i]);
    DepthStep(t, i);
    DepthStep(t, |t| - 1);
    assert t[..|t| - 1 + 1] == t;
  }

  lemma {:induction false} FindCloseFinds(s: string, pos: nat, k: nat)
    requires pos <= k < |s| && s[k] == ')'
    ensures FindClose(s, pos).Some?
    decreases k - pos
  {
    if s[pos] != ')' {
      FindCloseFinds(s, pos + 1, k);
    }
  }

  lemma BlockGroup(t: string, i: nat)
    requires BlockAt(t, i) && |t| >= i + 2 && t[|t| - 1] == ')'
    ensures GroupEnd(t, i) > i
  {
    FindCloseFinds(t, i + 1, |t| - 1);
  }

  /** Nothing else begins an action. */
  lemma NoNameNoAction(s: string)
    requires s != "" && !('a' <= s[0] <= 'z') && s[0] != '_'
    ensures FirstAction(s) == None
  {
  }

  // ---------------------------------------------------------------- recursion through ct and exec

  /** What the converters do: which names there are, and what they accept. */
  datatype Converters = Converters(known: set<string>, accepts: string -> bool, argOk: string -> bool)

  datatype Action = Simple(text: string) | Ct(commit: bool, force: bool, exec: seq<Action>)

  /** `ofp_instruction_from_str`; `first`: nothing has been parsed before. `None` stands for any error. */
  function Parse(conv: Converters, s: string, first: bool): Option<seq<Action>>
    decreases |s|, 2, 0
  {
    if s == [] then Some([])
    else match FirstAction(s)
      case None => None
      case Some(a) =>
        if a.name == "drop" then
          if a.text == "drop" && first && a.rest == "" then Some([]) else None
        else if a.name !in conv.known then None
        else
          var converted := Convert(conv, a.name, a.text);
          var more := Parse(conv, a.rest, false);
          if converted.None? then None else PrependAction(converted.value, more)
  }

  function PrependAction(a: Action, more: Option<seq<Action>>): Option<seq<Action>> {
    if more.None? then None else Some([a] + more.value)
  }

  function Convert(conv: Converters, name: string, text: string): Option<Action>
    decreases |text|, 1, 0
  {
    if name != "ct" then
      if conv.accepts(text) then Some(Simple(text)) else None
    else if |text| <= 2 then Some(Ct(false, false, []))
    else if !("ct(" <= text) || text[|text| - 1] != ')' then None
    else
      var inner := text[3..|text| - 1];
      match Tokenize(inner)
      case None => None
      case Some(args) => CtArgs(conv, args, |inner|)
  }

  /** The loop over the arguments of `ct`; the last `exec` counts. */
  function CtArgs(conv: Converters, args: seq<string>, bound: nat): (r: Option<Action>)
    requires forall t :: t in args ==> |t| <= bound
    ensures r.Some? ==> r.value.Ct?
    decreases bound, 0, |args|
  {
    if args == [] then Some(Ct(false, false, []))
    else
      var front, arg := CtArgs(conv, args[..|args| - 1], bound), args[|args| - 1];
      if front.None? then None
      else if arg == "commit" then Some(front.value.(commit := true))
      else if arg == "force" then Some(front.value.(force := true))
      else if "exec(" <= arg then
        match Parse(conv, ExecText(arg), true)
        case None => None
        case Some(actions) => Some(front.value.(exec := actions))
      else if '=' in arg && conv.argOk(arg) then front
      else None
  }

  /** `arg[len('exec('):-1]` */
  function ExecText(arg: string): (inner: string)
    requires "exec(" <= arg
    ensures |inner| < |arg| && (|arg| > 5 ==> |inner| + 6 == |arg|)
  {
    if |arg| == 5 then "" else arg[5..|arg| - 1]
  }

  /** What the arguments of `ct` may be. */
  predicate CtArgOk(conv: Converters, arg: string) {
    || arg == "commit" || arg == "force"
    || (if "exec(" <= arg then Parse(conv, ExecText(arg), true).Some? else '=' in arg && conv.argOk(arg))
  }

  /** The last `exec` among the arguments. */
  predicate LastExec(args: seq<string>, i: nat) {
    i < |args| && "exec(" <= args[i] && forall j :: i < j < |args| ==> !("exec(" <= args[j])
  }

  lemma {:induction false} CtArgsAccept(conv: Converters, args: seq<string>, bound: nat)
    requires forall t :: t in args ==> |t| <= bound
    ensures CtArgs(conv, args, bound).Some? <==> forall arg :: arg in args ==> CtArgOk(conv, arg)
  {
    if args != [] {
      var front, last := args[..|args| - 1], args[|args| - 1];
      CtArgsAccept(conv, front, bound);
      forall arg ensures arg in args <==> arg in front || arg == last {
        InLast(args, arg);
      }
      assert CtArgs(conv, args, bound).Some? <==> CtArgs(conv, front, bound).Some? && CtArgOk(conv, last);
    }
  }

  lemma CtArgsLast(conv: Converters, args: seq<string>, bound: nat)
    requires (forall t :: t in args ==> |t| <= bound) && args != [] && CtArgs(conv, args, bound).Some?
    ensures var front, last := CtArgs(conv, args[..|args| - 1], bound), args[|args| - 1];
      var r := CtArgs(conv, args, bound).value;
      && front.Some?
      && r.commit == (front.value.commit || last == "commit")
      && r.force == (front.value.force || last == "force")
      && if "exec(" <= last then Parse(conv, ExecText(last), true) == Some(r.exec) else r.exec == front.value.exec
  {
    FlagsAreNotExec();
  }

  lemma FlagsAreNotExec()
    ensures !("exec(" <= "commit") && !("exec(" <= "force")
  {
    assert "commit"[0] != "exec("[0] && "force"[0] != "exec("[0];
  }

  lemma InLast(args: seq<string>, arg: string)
    requires args != []
    ensures arg in args <==> arg in args[..|args| - 1] || arg == args[|args| - 1]
  {
    assert args == args[..|args| - 1] + [args[|args| - 1]];
  }

  lemma {:induction false} CtArgsFlags(conv: Converters, args: seq<string>, bound: nat)
    requires (forall t :: t in args ==> |t| <= bound) && CtArgs(conv, args, bound).Some?
    ensures CtArgs(conv, args, bound).value.commit <==> "commit" in args
    ensures CtArgs(conv, args, bound).value.force <==> "force" in args
  {
    if args != [] {
      CtArgsLast(conv, args, bound);
      CtArgsFlags(conv, args[..|args| - 1], bound);
      InLast(args, "commit");
      InLast(args, "force");
    }
  }

  lemma {:induction false} CtArgsExec(conv: Converters, args: seq<string>, bound: nat, i: nat)
    requires (forall t :: t in args ==> |t| <= bound) && CtArgs(conv, args, bound).Some?
    requires LastExec(args, i)
    ensures Parse(conv, ExecText(args[i]), true) == Some(CtArgs(conv, args, bound).value.exec)
  {
    CtArgsLast(conv, args, bound);
    if i < |args| - 1 {
      assert LastExec(args[..|args| - 1], i);
      CtArgsExec(conv, args[..|args| - 1], bound, i);
    }
  }

  lemma {:induction false} CtArgsNoExec(conv: Converters, args: seq<string>, bound: nat)
    requires (forall t :: t in args ==> |t| <= bound) && CtArgs(conv, args, bound).Some?
    requires forall i :: 0 <= i < |args| ==> !("exec(" <= args[i])
    ensures CtArgs(conv, args, bound).value.exec == []
  {
    if args != [] {
      CtArgsLast(conv, args, bound);
      CtArgsNoExec(conv, args[..|args| - 1], bound);
    }
  }

  /**
   What the arguments mean, in whatever order they come: `commit` and `force` set their own flags,
   the last `exec` gives the actions, and one bad argument rejects them all.
   */
  lemma CtArgsMean(conv: Converters, args: seq<string>, bound: nat)
    requires forall t :: t in args ==> |t| <= bound
    ensures var r := CtArgs(conv, args, bound);
      && (r.Some? <==> forall arg :: arg in args ==> CtArgOk(conv, arg))
      && (r.Some? ==> CtSays(conv, args, r.value))
  {
    CtArgsAccept(conv, args, bound);
    if CtArgs(conv, args, bound).Some? {
      CtArgsFlags(conv, args, bound);
      forall i: nat | LastExec(args, i)
        ensures Parse(conv, ExecText(args[i]), true) == Some(CtArgs(conv, args, bound).value.exec)
      {
        CtArgsExec(conv, args, bound, i);
      }
      if forall i :: 0 <= i < |args| ==> !("exec(" <= args[i]) {
        CtArgsNoExec(conv, args, bound);
      }
    }
  }

  ghost predicate CtSays(conv: Converters, args: seq<string>, a: Action) {
    && a.Ct?
    && (a.commit <==> "commit" in args)
    && (a.force <==> "force" in args)
    && (forall i: nat :: LastExec(args, i) ==> Parse(conv, ExecText(args[i]), true) == Some(a.exec))
    && ((forall i :: 0 <= i < |args| ==> !("exec(" <= args[i])) ==> a.exec == [])
  }

  /** `ct` alone has no arguments; otherwise they stand between `ct(` and the last parenthesis. */
  lemma CtText(conv: Converters, inner: string)
    ensures Convert(conv, "ct", "ct") == Some(Ct(false, false, []))
    ensures Convert(conv, "ct", "ct(" + inner + ")")
         == match Tokenize(inner) case None => None case Some(args) => CtArgs(conv, args, |inner|)
  {
    var text := "ct(" + inner + ")";
    assert text[3..|text| - 1] == inner;
  }

  /** What `exec(...)` holds is parsed as a string of actions. */
  lemma ExecTextIs(inner: string)
    ensures "exec(" <= "exec(" + inner + ")" && ExecText("exec(" + inner + ")") == inner
  {
    var arg := "exec(" + inner + ")";
    assert arg[5..|arg| - 1] == inner;
  }

  /**
   A whole `ct` action: any tokens between its parentheses, the last of them not empty, have exactly
   the flags and actions they name.
   */
  lemma CtMeans(conv: Converters, args: seq<string>)
    requires AreTokens(args) && args != [] && args[|args| - 1] != ""
    ensures var r := Convert(conv, "ct", "ct(" + Join(args) + ")");
      && (r.Some? <==> forall arg :: arg in args ==> CtArgOk(conv, arg))
      && (r.Some? ==> CtSays(conv, args, r.value))
  {
    TokensFound(args);
    CtText(conv, Join(args));
    CtArgsMean(conv, args, |Join(args)|);
  }

  /** Every other action is what its converter makes of its text. */
  lemma OthersAreSimple(conv: Converters, name: string, text: string)
    requires name != "ct"
    ensures Convert(conv, name, text) == if conv.accepts(text) then Some(Simple(text)) else None
  {
  }

  function NestingOf(a: Action): nat {
    if a.Simple? || a.exec == [] then 0 else 1 + Nesting(a.exec)
  }

  function Nesting(actions: seq<Action>): nat {
    if actions == [] then 0
    else
      var rest, first := Nesting(actions[1..]), NestingOf(actions[0]);
      if first > rest then first else rest
  }

  /**
   The recursion ends: each level of `ct(exec(...))` takes at least ten characters of the string, so
   the nesting is at most a tenth of its length.
   */
  lemma {:induction false} NestingIsBounded(conv: Converters, s: string, first: bool)
    requires Parse(conv, s, first).Some?
    ensures 10 * Nesting(Parse(conv, s, first).value) <= |s|
    decreases |s|, 2, 0
  {
    if s != [] {
      var a := FirstAction(s).value;
      if a.name != "drop" {
        ConvertNesting(conv, a.name, a.text);
        NestingIsBounded(conv, a.rest, false);
        var converted, more := Convert(conv, a.name, a.text).value, Parse(conv, a.rest, false).value;
        assert ([converted] + more)[1..] == more;
      }
    }
  }

  lemma {:induction false} ConvertNesting(conv: Converters, name: string, text: string)
    requires Convert(conv, name, text).Some?
    ensures 10 * NestingOf(Convert(conv, name, text).value) <= |text|
    decreases |text|, 1, 0
  {
    if name == "ct" && |text| > 2 {
      var inner := text[3..|text| - 1];
      CtArgsNesting(conv, Tokenize(inner).value, |inner|);
    }
  }

  lemma {:induction false} CtArgsNesting(conv: Converters, args: seq<string>, bound: nat)
    requires forall t :: t in args ==> |t| <= bound
    requires CtArgs(conv, args, bound).Some?
    ensures CtArgs(conv, args, bound).value.exec != [] ==>
      10 * NestingOf(CtArgs(conv, args, bound).value) <= bound + 4
    decreases bound, 0, |args|
  {
    if args != [] {
      var arg := args[|args| - 1];
      CtArgsNesting(conv, args[..|args| - 1], bound);
      if arg != "commit" && arg != "force" && "exec(" <= arg {
        NestingIsBounded(conv, ExecText(arg), true);
      }
    }
  }

  function NameOf(t: string): string {
    t[..NameEnd(t, 0)]
  }

  /** Every action on its own. */
  function ConvertAll(conv: Converters, ts: seq<string>): Option<seq<Action>> {
    if ts == [] then Some([])
    else if NameOf(ts[0]) == "drop" || NameOf(ts[0]) !in conv.known then None
    else
      var first, rest := Convert(conv, NameOf(ts[0]), ts[0]), ConvertAll(conv, ts[1..]);
      if first.None? || rest.None? then None else Some([first.value] + rest.value)
  }

  /**
   What a list of actions means: each is converted on its own and in order; `drop` is accepted alone
   and means no action, and anything that cannot be converted rejects the whole string.
   */
  lemma {:induction false} ParseConvertsEach(conv: Converters, ts: seq<string>, first: bool)
    requires AreActions(ts)
    ensures Parse(conv, Join(ts), first)
         == if first && ts == ["drop"] then Some([]) else ConvertAll(conv, ts)
  {
    if ts != [] {
      var t := ts[0];
      assert t in ts && ts == [t] + ts[1..];
      if |ts| == 1 {
        assert t[..|t|] == t;
        assert FirstAction(t) == Some(Split(NameOf(t), t, ""));
        assert ts[1..] == [];
      } else {
        ParseConvertsEach(conv, ts[1..], false);
        JoinCons(t, ts[1..]);
        FirstActionCons(t, Join(ts[1..]));
        JoinNotEmpty(ts[1..]);
      }
    }
  }

  lemma JoinNotEmpty(ts: seq<string>)
    requires AreActions(ts) && ts != []
    ensures Join(ts) != ""
  {
    assert ts[0] in ts;
  }

  /** The loop of `ofp_instruction_from_str`. */
  method OfpInstructionFromStr(conv: Converters, s: string) returns (result: Option<seq<Action>>)
    ensures result == Parse(conv, s, true)
  {
    var actionStr := s;
    var actions: seq<Action> := [];
    FollowNoActions(Parse(conv, s, true));
    while |actionStr| > 0
      invariant Parse(conv, s, true) == FollowActions(actions, Parse(conv, actionStr, actions == []))
      decreases |actionStr|
    {
      var split := FirstAction(actionStr);
      if split == None {
        return None;
      }
      var a := split.value;
      if a.name == "drop" {
        if a.text == "drop" && |actions| == 0 && a.rest == "" {
          return Some([]);
        }
        return None;
      }
      if a.name !in conv.known {
        return None;
      }
      var converted := Convert(conv, a.name, a.text);
      if converted == None {
        return None;
      }
      FollowAction(actions, converted.value, Parse(conv, a.rest, false));
      actions := actions + [converted.value];
      actionStr := a.rest;
    }
    assert actions + [] == actions;
    return Some(actions);
  }

  function FollowActions(actions: seq<Action>, more: Option<seq<Action>>): Option<seq<Action>> {
    if more.None? then None else Some(actions + more.value)
  }

  lemma FollowNoActions(more: Option<seq<Action>>)
    ensures FollowActions([], more) == more
  {
    if more.Some? {
      assert [] + more.value == more.value;
    }
  }

  lemma FollowAction(actions: seq<Action>, a: Action, more: Option<seq<Action>>)
    ensures FollowActions(actions, PrependAction(a, more)) == FollowActions(actions + [a], more)
  {
    if more.Some? {
      assert actions + ([a] + more.value) == (actions + [a]) + more.value;
    }
  }
}
