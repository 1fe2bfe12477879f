/** Packing candidates into the text the remote ranker sees, under a character limit. */
module JevPayload {
  import opened Text
  import Numerals
  import opened TaskContext

  const SUFFICIENCY := "context_sufficiency"

  function QuestionName(i: nat): string {
    "candidate_" + Numerals.Print(i, 10)
  }

  function Label(i: nat): string {
    ['['] + QuestionName(i) + [']']
  }

  /** `describe` gives the sanitised lines about a candidate. */
  function Block(describe: Evidence -> string, i: nat, e: Evidence): string {
    Label(i) + ['\n'] + describe(e)
  }

  /** `[header, ...blocks].join("\n\n")`. */
  function Joined(header: string, blocks: seq<string>): string {
    if blocks == [] then header
    else Joined(header, blocks[..|blocks| - 1]) + "\n\n" + blocks[|blocks| - 1]
  }

  lemma JoinedAppend(header: string, blocks: seq<string>, block: string)
    ensures Joined(header, blocks + [block]) == Joined(header, blocks) + "\n\n" + block
    ensures |Joined(header, blocks + [block])| == |Joined(header, blocks)| + 2 + |block|
  {
    assert (blocks + [block])[..|blocks|] == blocks;
  }

  lemma LabelIsShort(i: nat)
    requires i < 100
    ensures |Label(i)| <= 14
  {
    assert i < 10 ==> |Numerals.Print(i, 10)| == 1;
    assert i >= 10 ==> i / 10 < 10 && |Numerals.Print(i / 10, 10)| == 1;
  }

  /** The state text names every candidate up to `n`. */
  ghost predicate NamesAll(state: string, n: nat) {
    forall i: nat | i < n :: Contains(state, Label(i))
  }

  lemma NamesOneMore(state: string, n: nat, block: string)
    requires NamesAll(state, n) && Label(n) <= block
    ensures NamesAll(state + "\n\n" + block, n + 1)
  {
    var more := state + "\n\n" + block;
    hide Contains, Label;
    assert more == state + ("\n\n" + block);
    forall i: nat | i < n + 1 ensures Contains(more, Label(i)) {
      if i < n {
        ContainsAppend(state, "\n\n" + block, Label(i));
      } else {
        assert more == (state + "\n\n") + Label(n) + block[|Label(n)|..];
        ContainsMiddle(state + "\n\n", Label(n), block[|Label(n)|..]);
      }
    }
  }

  /** `blocks` are the blocks of the first candidates, whole but for the last, which is cut only to fill the limit
      exactly; the text is within the limit unless the header alone is not, and it names every one of them. */
  ghost predicate IsPacking(header: string, describe: Evidence -> string, candidates: seq<Evidence>, maxStateChars: nat,
                            blocks: seq<string>)
  {
    && |blocks| <= |candidates|
    && (forall i | 0 <= i < |blocks| :: blocks[i] <= Block(describe, i, candidates[i]))
    && (forall i | 0 <= i < |blocks| && blocks[i] != Block(describe, i, candidates[i]) ::
          i == |blocks| - 1 && |Joined(header, blocks)| == maxStateChars)
    && |Joined(header, blocks)| <= (if |header| < maxStateChars then maxStateChars else |header|)
    && NamesAll(Joined(header, blocks), |blocks|)
  }

  ghost predicate AllWhole(describe: Evidence -> string, candidates: seq<Evidence>, blocks: seq<string>) {
    |blocks| <= |candidates| && forall i | 0 <= i < |blocks| :: blocks[i] == Block(describe, i, candidates[i])
  }

  lemma PackOneMore(header: string, describe: Evidence -> string, candidates: seq<Evidence>, maxStateChars: nat,
                    blocks: seq<string>, bounded: string)
    requires IsPacking(header, describe, candidates, maxStateChars, blocks) && AllWhole(describe, candidates, blocks)
    requires |blocks| < |candidates| && |blocks| < 100
    requires var block := Block(describe, |blocks|, candidates[|blocks|]);
             var remaining := maxStateChars - |Joined(header, blocks)| - 2;
             remaining >= 160 && bounded == if |block| <= remaining then block else block[..remaining]
    ensures IsPacking(header, describe, candidates, maxStateChars, blocks + [bounded])
    ensures |Joined(header, blocks + [bounded])| == |Joined(header, blocks)| + 2 + |bounded|
    ensures |bounded| == |Block(describe, |blocks|, candidates[|blocks|])| ==>
              AllWhole(describe, candidates, blocks + [bounded])
  {
    hide NamesAll, Joined, Label;
    LabelIsShort(|blocks|);
    assert Label(|blocks|) <= bounded;
    hide Block;
    JoinedAppend(header, blocks, bounded);
    NamesOneMore(Joined(header, blocks), |blocks|, bounded);
  }

  lemma NothingPacked(header: string, describe: Evidence -> string, candidates: seq<Evidence>, maxStateChars: nat)
    ensures IsPacking(header, describe, candidates, maxStateChars, []) && AllWhole(describe, candidates, [])
    ensures Joined(header, []) == header
  {
  }

  /** The packed text, the questions about it and the candidates in it; more candidates are left out only when fewer
      than 160 characters are left for them. */
  method BuildPayload(header: string, describe: Evidence -> string, candidates: seq<Evidence>, maxStateChars: nat)
    returns (state: string, questions: seq<string>, selected: seq<Evidence>, blocks: seq<string>)
    requires |candidates| <= 100
    ensures IsPacking(header, describe, candidates, maxStateChars, blocks) && state == Joined(header, blocks)
    ensures |selected| == |blocks| && selected <= candidates
    ensures |selected| < |candidates| ==> maxStateChars - |state| < 162
    ensures |questions| == |selected| + 1 && questions[|selected|] == SUFFICIENCY
    ensures forall i | 0 <= i < |selected| :: questions[i] == QuestionName(i)
  {
    blocks, selected := [], [];
    var usedChars := |header|;
    NothingPacked(header, describe, candidates, maxStateChars);
    hide IsPacking, AllWhole, Joined, Block, QuestionName;
    var k := 0;
    while k < |candidates|
      invariant 0 <= k == |selected| == |blocks| <= |candidates| && selected == candidates[..k]
      invariant usedChars == |Joined(header, blocks)|
      invariant IsPacking(header, describe, candidates, maxStateChars, blocks) && AllWhole(describe, candidates, blocks)
    {
      var block := Block(describe, k, candidates[k]);
      var remaining := maxStateChars - usedChars - 2;
      if remaining < 160 {
        break;
      }
      var boundedBlock := if |block| <= remaining then block else block[..remaining];
      PackOneMore(header, describe, candidates, maxStateChars, blocks, boundedBlock);
      blocks := blocks + [boundedBlock];
      selected := selected + [candidates[k]];
      usedChars := usedChars + |boundedBlock| + 2;
      k := k + 1;
      if |boundedBlock| < |block| {
        break;
      }
    }
    questions := seq(|selected|, i requires 0 <= i < |selected| => QuestionName(i)) + [SUFFICIENCY];
    state := Joined(header, blocks);
  }
}
