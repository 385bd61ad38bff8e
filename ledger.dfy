/**
 * The per-command ledger kept beside a rendered procedure: for each command
 * id, the times the command was copied and the evidence recorded for it,
 * both newest first. Timestamps are opaque strings supplied by the caller.
 */
module ExecutionLedger {
  import opened Text

  /** One evidence entry: `{timestamp, iso, text}`. */
  datatype EvidenceRecord = EvidenceRecord(timestamp: string, iso: string, text: string)

  /** How many copy timestamps a command shows. */
  const ShownCopies: nat := 5

  /** `map.get(id) ?? []`: the list kept for `id`, or the empty list. */
  function ListOf<T>(m: map<string, seq<T>>, id: string): (l: seq<T>)
    ensures id in m ==> l == m[id]
    ensures id !in m ==> l == []
  {
    if id in m then m[id] else []
  }

  /** `historyList.slice(0, 5)`: the newest copy timestamps, at most five,
      in the order they are kept. */
  function Shown(history: seq<string>): (shown: seq<string>)
    ensures |shown| == if |history| < ShownCopies then |history| else ShownCopies
    ensures shown == history[..|shown|]
  {
    if |history| <= ShownCopies then history else history[..ShownCopies]
  }

  /** A new copy is the first timestamp shown, and the ones shown before it
      follow, less the oldest when five were already shown. */
  lemma ShownAfterCopy(history: seq<string>, timestamp: string)
    ensures Shown([timestamp] + history)[0] == timestamp
    ensures Shown([timestamp] + history)[1..] == Shown(history)[..|Shown([timestamp] + history)| - 1]
  {
    var after := Shown([timestamp] + history);
    assert after[1..] == history[..|after| - 1];
  }

  /** The text kept for an evidence input: the input trimmed, or nothing
      when it is blank. */
  function EvidenceText(input: string): (r: Option<string>)
    ensures r.None? <==> AllWhitespace(input)
    ensures r.Some? ==> r.value != "" && !IsWhitespace(r.value[0]) && !IsWhitespace(r.value[|r.value| - 1])
  {
    var value := Trim(input);
    if value == "" then None else Some(value)
  }

  /** Submitting kept text again keeps it unchanged. */
  lemma EvidenceTextStable(input: string)
    requires EvidenceText(input).Some?
    ensures EvidenceText(EvidenceText(input).value) == EvidenceText(input)
  {
    TrimTrim(input);
  }

  class Ledger {
    /** `copyHistory`: copy timestamps per command id, newest first. */
    var copyHistory: map<string, seq<string>>
    /** `evidenceRecords`: evidence entries per command id, newest first. */
    var evidenceRecords: map<string, seq<EvidenceRecord>>

    constructor()
      ensures copyHistory == map[] && evidenceRecords == map[]
    {
      copyHistory := map[];
      evidenceRecords := map[];
    }

    /** The copy timestamps shown for `commandId`. */
    function ShownHistory(commandId: string): (shown: seq<string>)
      reads this
      ensures |shown| <= ShownCopies && |shown| <= |ListOf(copyHistory, commandId)|
      ensures shown == ListOf(copyHistory, commandId)[..|shown|]
    {
      Shown(ListOf(copyHistory, commandId))
    }

    /** Rendering a command: a command seen for the first time gets empty
        lists; a command already known (a re-render, or a re-parse that
        gives the same id) keeps what it has. */
    method Register(commandId: string)
      modifies this
      ensures commandId in copyHistory && commandId in evidenceRecords
      ensures copyHistory == if commandId in old(copyHistory) then old(copyHistory) else old(copyHistory)[commandId := []]
      ensures evidenceRecords
        == if commandId in old(evidenceRecords) then old(evidenceRecords) else old(evidenceRecords)[commandId := []]
    {
      if commandId !in copyHistory {
        copyHistory := copyHistory[commandId := []];
      }
      if commandId !in evidenceRecords {
        evidenceRecords := evidenceRecords[commandId := []];
      }
    }

    /** A successful copy: its timestamp goes in front of the command's
        history; nothing else changes. */
    method RecordCopy(commandId: string, timestamp: string)
      modifies this
      ensures copyHistory == old(copyHistory)[commandId := [timestamp] + ListOf(old(copyHistory), commandId)]
      ensures evidenceRecords == old(evidenceRecords)
      ensures ListOf(copyHistory, commandId)[0] == timestamp
      ensures ListOf(copyHistory, commandId)[1..] == ListOf(old(copyHistory), commandId)
      ensures forall other :: other != commandId ==> ListOf(copyHistory, other) == ListOf(old(copyHistory), other)
    {
      var historyList := ListOf(copyHistory, commandId);
      historyList := [timestamp] + historyList;
      copyHistory := copyHistory[commandId := historyList];
    }

    /** Submitting the evidence form: blank input is refused and changes
        nothing; otherwise the trimmed text, with its timestamps, goes in
        front of the command's records. */
    method SubmitEvidence(commandId: string, input: string, timestamp: string, iso: string) returns (accepted: bool)
      modifies this
      ensures accepted <==> EvidenceText(input).Some?
      ensures accepted ==> evidenceRecords == old(evidenceRecords)[commandId :=
        [EvidenceRecord(timestamp, iso, EvidenceText(input).value)] + ListOf(old(evidenceRecords), commandId)]
      ensures !accepted ==> evidenceRecords == old(evidenceRecords)
      ensures copyHistory == old(copyHistory)
    {
      var value := Trim(input);
      if value == "" {
        return false;
      }
      var records := ListOf(evidenceRecords, commandId);
      records := [EvidenceRecord(timestamp, iso, value)] + records;
      evidenceRecords := evidenceRecords[commandId := records];
      accepted := true;
    }
  }
}
