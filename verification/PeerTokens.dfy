/**
 What tokens are good for (packages/core/src/approvalTokens.ts): when two of them make an approval ambiguous, what ends
 all of a conversation's, and which drafts the tokens without an owner let through.
 */
module PeerTokens {
  import opened Basics
  import opened ExactArgs
  import opened ApprovalTokens
  import opened PeerGuard
  import opened PeerPolicy

  lemma {:induction false} FilterOf<T(!new)>(p: T -> bool, q: T -> bool, both: T -> bool, ts: seq<T>)
    requires forall t :: both(t) <==> q(t) && p(t)
    ensures Filter(p, Filter(q, ts)) == Filter(both, ts)
  {
    if ts != [] {
      FilterOf(p, q, both, ts[1..]);
      if q(ts[0]) {
        assert ([ts[0]] + Filter(q, ts[1..]))[1..] == Filter(q, ts[1..]);
      }
    }
  }

  lemma {:induction false} FilterMany<T(!new)>(p: T -> bool, ts: seq<T>)
    ensures |Filter(p, ts)| >= 1 <==> exists i :: 0 <= i < |ts| && p(ts[i])
    ensures |Filter(p, ts)| >= 2 <==> exists i, j :: 0 <= i < j < |ts| && p(ts[i]) && p(ts[j])
  {
    if ts != [] {
      var rest := ts[1..];
      FilterMany(p, rest);
      assert forall i :: 0 <= i < |rest| ==> rest[i] == ts[i + 1];
      if i :| 0 <= i < |rest| && p(rest[i]) { assert p(ts[i + 1]); }
      if i, j :| 0 <= i < j < |rest| && p(rest[i]) && p(rest[j]) { assert p(ts[i + 1]) && p(ts[j + 1]); }
      if i :| 0 <= i < |ts| && p(ts[i]) { assert i > 0 ==> p(rest[i - 1]); }
      if i, j :| 0 <= i < j < |ts| && p(ts[i]) && p(ts[j]) { assert p(rest[j - 1]) && (i > 0 ==> p(rest[i - 1])); }
    }
  }

  /** The usable tokens that answer a call, of all the tokens of the conversation. */
  function AnswersNow(rules: Rules, owner: string, tool: string, input: Json, request: string, now: int): Token -> bool
  {
    (t: Token) => t.expiresAt > now && t.owner.Some? && t.owner.value != "" && t.args.Some?
                  && Answers(rules, t, owner, tool, input, request)
  }

  function Kept(m: Table, c: string): seq<Token> { if c in m then m[c] else [] }

  lemma ExactIsFilter(rules: Rules, m: Table, c: string, owner: string, tool: string, input: Json, request: string,
                      now: int)
    ensures ExactCandidates(rules, Filter(Owned, LiveOf(m, c, now)), owner, tool, input, request)
      == Filter(AnswersNow(rules, owner, tool, input, request, now), Kept(m, c))
  {
    var live := (t: Token) => t.expiresAt > now;
    var usable := (t: Token) => t.expiresAt > now && Owned(t);
    var ts := Kept(m, c);
    FilterOf(Owned, live, usable, ts);
    var matches := (t: Token) => Matches(rules, owner, tool, input, t);
    var answers := AnswersNow(rules, owner, tool, input, request, now);
    match rules.exactText(request)
    case None =>
      FilterOf(matches, usable, answers, ts);
    case Some(text) =>
      var quotes := (t: Token) => HasText(t, text);
      var quoted := (t: Token) => usable(t) && quotes(t);
      FilterOf(quotes, usable, quoted, ts);
      forall t
        ensures HasText(t, text) <==> t.args.Some? && t.args.value.Obj? && Entries(t.args.value.entries, text)
      {
        QuotedIn(t, text);
      }
      hide HasText, Entries;
      FilterOf(matches, quoted, answers, ts);
  }

  /**
   For every table, reachable or not: an approval is ambiguous just when two tokens of the conversation answer the call,
   and allowed just when one does.
   */
  lemma AmbiguousExactly(rules: Rules, m: Table, c: string, owner: string, tool: string, input: Json, request: string,
                         now: int)
    ensures var r, answers := Resolve(rules, m, c, owner, tool, input, request, now).resolution,
                              AnswersNow(rules, owner, tool, input, request, now);
            var ts := Kept(m, c);
            && (r == Ambiguous <==> exists i, j :: 0 <= i < j < |ts| && answers(ts[i]) && answers(ts[j]))
            && (r == Allowed <==>
                  && (exists i :: 0 <= i < |ts| && answers(ts[i]))
                  && !exists i, j :: 0 <= i < j < |ts| && answers(ts[i]) && answers(ts[j]))
  {
    ExactIsFilter(rules, m, c, owner, tool, input, request, now);
    FilterMany(AnswersNow(rules, owner, tool, input, request, now), Kept(m, c));
    hide Filter, AnswersNow, LiveOf, Candidates;
    var tokens := Filter(Owned, LiveOf(m, c, now));
    var exact := ExactCandidates(rules, tokens, owner, tool, input, request);
    assert tokens == [] ==> exact == [] by { NoneExact(rules, owner, tool, input, request); }
  }

  lemma NoneExact(rules: Rules, owner: string, tool: string, input: Json, request: string)
    ensures ExactCandidates(rules, [], owner, tool, input, request) == []
  {
  }

  /** Cancelling, consuming and the other kinds of token leave nothing usable in a conversation; a restart in none. */
  lemma NothingUsableAfter(rules: Rules, s: System, e: PeerGuard.Event, now: int, c: string, t: Token)
    requires WellFormedEvent(e)
    requires e.Restart? || ((e.Cancel? || e.Consume? || e.Legacy? || e.Outbound?) && e.c == c)
    ensures var next := Step(rules, s, e, now).table;
      && !Usable(next, c, now, t)
      && (!e.Restart? ==> next - {c} == s.table - {c})
  {
    hide Registered, Guard;
  }

  /** Saving stores the live tokens in the row; loading brings back those of the row that are still live, no others. */
  lemma RowIsSnapshot(rules: Rules, s: System, c: string, now: int)
    ensures var saved := Step(rules, s, Save(c), now);
      && (forall x :: c in saved.rows && x in saved.rows[c] <==> c in s.table && x in s.table[c] && x.expiresAt > now)
      && (forall x :: c in saved.table && x in saved.table[c] <==> c in s.table && x in s.table[c] && x.expiresAt > now)
      && saved.table - {c} == s.table - {c} && saved.rows - {c} == s.rows - {c}
    ensures var loaded := Step(rules, s, Load(c), now);
      && (forall x :: c in loaded.table && x in loaded.table[c] <==> c in s.rows && x in s.rows[c] && x.expiresAt > now)
      && loaded.table - {c} == s.table - {c} && loaded.rows == s.rows
  {
    FilterMembers((x: Token) => x.expiresAt > now, Kept(s.table, c));
    FilterMembers((x: Token) => x.expiresAt > now, RowOf(s, c));
    hide Filter, Guard, Registered;
  }

  /** A draft is let through by some live token of the conversation. */
  ghost predicate Valid(rules: Rules, m: Table, c: string, tool: string, content: Json, now: int) {
    exists t | t in LiveOf(m, c, now) :: LetsThrough(rules, tool, content, t)
  }

  /**
   Once a draft was held in the old way, for fifteen minutes, drafts with its tool and its hash are let through in the
   conversation and no others; once an outbound message was composed, all are.
   */
  lemma LegacyLetsThrough(rules: Rules, s: System, e: PeerGuard.Event, now: int, c: string, tool: string, content: Json,
                          later: int)
    requires WellFormedEvent(e) && (e.Legacy? || e.Outbound?) && e.c == c
    ensures Valid(rules, Step(rules, s, e, now).table, c, tool, content, later) <==>
      && later < now + 900_000
      && (e.Legacy? ==> tool == e.tool && rules.draftHash(content) == rules.draftHash(e.content))
  {
    var next := Step(rules, s, e, now).table;
    assert |next[c]| == 1;
    var t := next[c][0];
    FilterMembers((x: Token) => x.expiresAt > later, next[c]);
    assert t in next[c] && forall x | x in next[c] :: x == t;
    hide Filter, Guard, Registered;
    if Valid(rules, next, c, tool, content, later) {
      var x :| x in LiveOf(next, c, later) && LetsThrough(rules, tool, content, x);
    } else {
      assert t in LiveOf(next, c, later) ==> !LetsThrough(rules, tool, content, t);
    }
  }
}
