/**
 The context budget shown before a run, against the messages the run then sends. Follows
 `estimate_context_budget` and its token estimates in src/gigaloom/preflight.py and
 `_build_request_messages` in src/gigaloom/session_runner.py.
 */
module ContextBudget {
  datatype Message = Message(role: string, content: string)

  datatype Attachment = Attachment(image: bool, size: int)

  datatype Budget = Budget(
    promptTokens: nat,
    memoryTokens: nat,
    previousCount: nat,
    included: seq<Message>,
    previousChars: nat,
    attachmentTokens: nat,
    total: nat,
    omitted: nat)

  const SAMPLE_BYTES := 65536

  /** The messages that count as history. */
  function History(messages: seq<Message>): seq<Message> {
    if messages == [] then []
    else
      var m := messages[0];
      (if m.role in {"user", "assistant"} && m.content != "" then [m] else []) + History(messages[1..])
  }

  /** Python's `xs[-n:]`: for zero the whole sequence, for a negative `n` all but the first of it. */
  function LastOf<T>(xs: seq<T>, n: int): seq<T> {
    if n > 0 then (if n >= |xs| then xs else xs[|xs| - n..])
    else if -n >= |xs| then []
    else xs[-n..]
  }

  function EstimateTokens(chars: int): nat {
    if chars <= 0 then 0 else (chars + 3) / 4
  }

  function Chars(messages: seq<Message>): nat {
    if messages == [] then 0 else |messages[0].content| + Chars(messages[1..])
  }

  function MemoryChars(memory: seq<string>): nat {
    if memory == [] then 0 else |memory[0]| + MemoryChars(memory[1..])
  }

  function CountedChars(a: Attachment): nat {
    if a.image || a.size < 0 then 0 else if a.size < SAMPLE_BYTES then a.size else SAMPLE_BYTES
  }

  function AttachmentChars(attachments: seq<Attachment>): nat {
    if attachments == [] then 0 else CountedChars(attachments[0]) + AttachmentChars(attachments[1..])
  }

  function AttachmentTokens(attachments: seq<Attachment>): nat {
    if attachments == [] then 0
    else (if attachments[0].image then 0 else EstimateTokens(CountedChars(attachments[0])))
         + AttachmentTokens(attachments[1..])
  }

  function Estimate(prompt: string, previous: seq<Message>, attachments: seq<Attachment>, memory: seq<string>,
                    limit: int)
    : Budget
  {
    var history := History(previous);
    var keep := if limit - 1 > 0 then limit - 1 else 0;
    var included := LastOf(history, keep);
    Budget(EstimateTokens(|prompt|), EstimateTokens(MemoryChars(memory)), |history|, included, Chars(included),
           AttachmentTokens(attachments),
           EstimateTokens(|prompt|) + EstimateTokens(MemoryChars(memory)) + EstimateTokens(Chars(included))
           + AttachmentTokens(attachments),
           if |history| > keep then |history| - keep else 0)
  }

  /** What the run sends under the same limit; the prompt comes last. */
  function RequestMessages(previous: seq<Message>, prompt: string, limit: int): seq<Message> {
    LastOf(History(previous) + [Message("user", prompt)], limit)
  }

  /**
   For every limit from zero the budget includes exactly the history that is sent before the prompt,
   except for a limit of one with a history: there the run sends none of it and the budget has it all.
   */
  lemma BudgetPredictsRequest(prompt: string, previous: seq<Message>, attachments: seq<Attachment>, memory: seq<string>,
                              limit: int)
    requires limit >= 0
    ensures RequestMessages(previous, prompt, limit)
              == Estimate(prompt, previous, attachments, memory, limit).included + [Message("user", prompt)]
            <==> limit != 1 || History(previous) == []
  {
    var history := History(previous);
    var sent := RequestMessages(previous, prompt, limit);
    var included := Estimate(prompt, previous, attachments, memory, limit).included;
    if limit == 0 {
      assert sent == history + [Message("user", prompt)];
    } else if limit == 1 {
      assert included == history;
      assert |sent| == 1;
    } else {
      assert sent == LastOf(history, limit - 1) + [Message("user", prompt)];
    }
  }

  /** Included and omitted messages make up the history, except when everything is said to be omitted. */
  lemma NothingUncounted(prompt: string, previous: seq<Message>, attachments: seq<Attachment>, memory: seq<string>,
                         limit: int)
    ensures var b := Estimate(prompt, previous, attachments, memory, limit);
            |b.included| + b.omitted == b.previousCount <==> limit >= 2 || b.previousCount == 0
  {
  }

  /** History keeps order and repetition, and takes a message exactly if a user or an assistant said something. */
  lemma {:induction false} HistoryExactly(earlier: seq<Message>, m: Message)
    ensures History([]) == []
    ensures History(earlier + [m])
            == History(earlier) + if (m.role == "user" || m.role == "assistant") && |m.content| > 0 then [m] else []
  {
    if earlier == [] {
      assert [] + [m] == [m] && [m][1..] == [];
    } else {
      assert (earlier + [m])[1..] == earlier[1..] + [m];
      HistoryExactly(earlier[1..], m);
    }
  }

  /** Messages and memory count in full. */
  lemma {:induction false} CharsExactly(earlier: seq<Message>, m: Message)
    ensures Chars([]) == 0 && Chars(earlier + [m]) == Chars(earlier) + |m.content|
  {
    if earlier == [] {
      assert [] + [m] == [m] && [m][1..] == [];
    } else {
      assert (earlier + [m])[1..] == earlier[1..] + [m];
      CharsExactly(earlier[1..], m);
    }
  }

  lemma {:induction false} MemoryExactly(earlier: seq<string>, entry: string)
    ensures MemoryChars([]) == 0 && MemoryChars(earlier + [entry]) == MemoryChars(earlier) + |entry|
  {
    if earlier == [] {
      assert [] + [entry] == [entry] && [entry][1..] == [];
    } else {
      assert (earlier + [entry])[1..] == earlier[1..] + [entry];
      MemoryExactly(earlier[1..], entry);
    }
  }

  /** Of the attachments images do not count, nor negative sizes, and of a file at most its first 64 KiB. */
  lemma {:induction false} AttachmentsExactly(earlier: seq<Attachment>, a: Attachment)
    ensures AttachmentChars([]) == 0 && AttachmentTokens([]) == 0
    ensures var counted := if a.image || a.size <= 0 then 0 else if a.size > 64 * 1024 then 64 * 1024 else a.size;
            && AttachmentChars(earlier + [a]) == AttachmentChars(earlier) + counted
            && AttachmentTokens(earlier + [a]) == AttachmentTokens(earlier) + EstimateTokens(counted)
  {
    if earlier == [] {
      assert [] + [a] == [a] && [a][1..] == [];
    } else {
      assert (earlier + [a])[1..] == earlier[1..] + [a];
      AttachmentsExactly(earlier[1..], a);
    }
  }

  function Part(chars: nat): nat {
    if chars == 0 then 0 else 1
  }

  function AttachmentParts(attachments: seq<Attachment>): nat {
    if attachments == [] then 0 else Part(CountedChars(attachments[0])) + AttachmentParts(attachments[1..])
  }

  lemma TokensBounded(chars: nat)
    ensures chars <= 4 * EstimateTokens(chars) <= chars + 3 * Part(chars)
  {
  }

  lemma {:induction false} AttachmentTokensBounded(attachments: seq<Attachment>)
    ensures AttachmentChars(attachments) <= 4 * AttachmentTokens(attachments)
            <= AttachmentChars(attachments) + 3 * AttachmentParts(attachments)
  {
    if attachments != [] {
      TokensBounded(CountedChars(attachments[0]));
      AttachmentTokensBounded(attachments[1..]);
    }
  }

  /**
   The total is at least a quarter of all the characters counted, and above it by at most three
   quarters of a token for each part that has any.
   */
  lemma TotalBounded(prompt: string, previous: seq<Message>, attachments: seq<Attachment>, memory: seq<string>,
                     limit: int)
    ensures var b := Estimate(prompt, previous, attachments, memory, limit);
            var chars := |prompt| + MemoryChars(memory) + b.previousChars + AttachmentChars(attachments);
            var parts := Part(|prompt|) + Part(MemoryChars(memory)) + Part(b.previousChars)
                         + AttachmentParts(attachments);
            chars <= 4 * b.total <= chars + 3 * parts
  {
    var b := Estimate(prompt, previous, attachments, memory, limit);
    TokensBounded(|prompt|);
    TokensBounded(MemoryChars(memory));
    TokensBounded(b.previousChars);
    AttachmentTokensBounded(attachments);
  }

  lemma {:induction false} CharsMonotone(xs: seq<Message>, k: nat)
    requires k <= |xs|
    ensures Chars(xs[k..]) <= Chars(xs)
  {
    if k > 0 {
      assert xs[1..][k - 1..] == xs[k..];
      CharsMonotone(xs[1..], k - 1);
    } else {
      assert xs[0..] == xs;
    }
  }

  /** A larger limit never lowers the estimate, from the limit of two on. */
  lemma {:induction false} MoreHistoryCostsMore(prompt: string, previous: seq<Message>,
                                                attachments: seq<Attachment>, memory: seq<string>,
                             limit: int, more: int)
    requires 2 <= limit <= more
    ensures Estimate(prompt, previous, attachments, memory, limit).total
            <= Estimate(prompt, previous, attachments, memory, more).total
  {
    var all := History(previous);
    var wide, narrow := LastOf(all, more - 1), LastOf(all, limit - 1);
    assert narrow == wide[|wide| - |narrow|..];
    CharsMonotone(wide, |wide| - |narrow|);
  }
}
