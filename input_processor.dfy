/**
 * InputProcessor: matches the keys held at a moment against a timeline of
 * key records.
 *
 * Each record names a key note, a start time and a duration, all relative
 * to the moment of the first call (the trigger anchor). A call succeeds
 * when at least one record is live at the current offset and every live
 * record's key note is among the notes held. Times are modelled as exact
 * reals; the source's single-precision rounding is not modelled.
 */
module InputProcessing {

  /** A key (button id, touch id, ...) and its status (up, down, pressed, ...); compared field by field. */
  datatype KeyNoteData = KeyNoteData(Key: int, Status: int)

  /** One key record of the timeline. */
  datatype InputKeyData = InputKeyData(KeyNote: KeyNoteData, StartTime: real, Duration: real)

  /** The anchor value meaning "not triggered yet". */
  const Unanchored: real := -1.0

  /**
   * Whether a record is live at offset `curTime`: it has started, and it
   * has not ended when its duration is positive. A record whose duration
   * is zero or negative never ends.
   */
  predicate Covers(kd: InputKeyData, curTime: real) {
    kd.StartTime <= curTime && (if kd.Duration > 0.0 then kd.Duration + kd.StartTime >= curTime else true)
  }

  /** List.FindAll with Covers: the live records, in timeline order. */
  function ValidKeys(keyDatas: seq<InputKeyData>, curTime: real): (r: seq<InputKeyData>)
    ensures |r| <= |keyDatas|
    ensures forall kd :: kd in r <==> kd in keyDatas && Covers(kd, curTime)
  {
    if |keyDatas| == 0 then []
    else if Covers(keyDatas[0], curTime) then [keyDatas[0]] + ValidKeys(keyDatas[1..], curTime)
    else ValidKeys(keyDatas[1..], curTime)
  }

  /** FindAll keeps each live record as many times as it occurs in the timeline, and drops the others. */
  lemma {:induction false} ValidKeysCounts(keyDatas: seq<InputKeyData>, curTime: real, kd: InputKeyData)
    ensures multiset(ValidKeys(keyDatas, curTime))[kd] == if Covers(kd, curTime) then multiset(keyDatas)[kd] else 0
  {
    if |keyDatas| > 0 {
      ValidKeysCounts(keyDatas[1..], curTime, kd);
      assert keyDatas == [keyDatas[0]] + keyDatas[1..];
    }
  }

  /** Whether every given record's key note is among the notes held. */
  function AllTriggered(valid: seq<InputKeyData>, keyNotes: seq<KeyNoteData>): (b: bool)
    ensures b <==> forall i :: 0 <= i < |valid| ==> valid[i].KeyNote in keyNotes
  {
    if |valid| == 0 then true
    else valid[0].KeyNote in keyNotes && AllTriggered(valid[1..], keyNotes)
  }

  /** The anchor after a call at `time` that got past the empty-list check. */
  function Anchor(startTriggerTime: real, time: real): (a: real)
    ensures startTriggerTime >= 0.0 ==> a == startTriggerTime
    ensures startTriggerTime < 0.0 ==> time - a == 0.0
  {
    if startTriggerTime < 0.0 then time else startTriggerTime
  }

  /** The answer of one call and the anchor it leaves behind. */
  datatype Outcome = Outcome(triggered: bool, startTriggerTime: real)

  /**
   * One SimulateCombos call from anchor `startTriggerTime`. An empty
   * timeline or an empty set of held notes answers false and leaves the
   * anchor alone. Otherwise the anchor is set if unset, and the answer is
   * true exactly when some record is live at the offset from the anchor
   * and every live record's note is held.
   */
  function Simulate(startTriggerTime: real, keyDatas: seq<InputKeyData>, keyNotes: seq<KeyNoteData>, time: real): (r: Outcome)
    ensures |keyDatas| == 0 || |keyNotes| == 0 ==> r == Outcome(false, startTriggerTime)
    ensures r.triggered <==>
      && |keyDatas| > 0 && |keyNotes| > 0
      && (exists kd :: kd in keyDatas && Covers(kd, time - r.startTriggerTime))
      && (forall kd :: kd in keyDatas && Covers(kd, time - r.startTriggerTime) ==> kd.KeyNote in keyNotes)
  {
    if |keyDatas| == 0 || |keyNotes| == 0 then Outcome(false, startTriggerTime)
    else
      var anchor := Anchor(startTriggerTime, time);
      var valid := ValidKeys(keyDatas, time - anchor);
      assert |valid| > 0 ==> valid[0] in valid;
      Outcome(|valid| > 0 && AllTriggered(valid, keyNotes), anchor)
  }

  /**
   * Once anchored at a non-negative time, the anchor stays put for every
   * later call, whatever its time, until ResetTriggerTime.
   */
  lemma AnchorPersists(startTriggerTime: real, keyDatas: seq<InputKeyData>, keyNotes: seq<KeyNoteData>, time: real)
    requires startTriggerTime >= 0.0
    ensures Simulate(startTriggerTime, keyDatas, keyNotes, time).startTriggerTime == startTriggerTime
  {
  }

  /**
   * The call that anchors the timeline sees offset zero: it succeeds
   * exactly when some record is live at offset 0 and every record live at
   * offset 0 has its note held.
   */
  lemma AnchoringCallSeesZero(keyDatas: seq<InputKeyData>, keyNotes: seq<KeyNoteData>, time: real)
    requires |keyDatas| > 0 && |keyNotes| > 0
    ensures Simulate(Unanchored, keyDatas, keyNotes, time).startTriggerTime == time
    ensures Simulate(Unanchored, keyDatas, keyNotes, time).triggered <==>
      && (exists kd :: kd in keyDatas && Covers(kd, 0.0))
      && (forall kd :: kd in keyDatas && Covers(kd, 0.0) ==> kd.KeyNote in keyNotes)
  {
    var r := Simulate(Unanchored, keyDatas, keyNotes, time);
    assert time - r.startTriggerTime == 0.0;
  }

  /**
   * A call at a negative time from an unset anchor stores that negative
   * time, which still reads as unset: the next call anchors again at its
   * own time.
   */
  lemma NegativeTimeReanchors(keyDatas: seq<InputKeyData>, keyNotes: seq<KeyNoteData>, time: real, later: real)
    requires |keyDatas| > 0 && |keyNotes| > 0 && time < 0.0
    ensures var first := Simulate(Unanchored, keyDatas, keyNotes, time);
      first.startTriggerTime < 0.0 &&
      Simulate(first.startTriggerTime, keyDatas, keyNotes, later).startTriggerTime == later
  {
  }

  /**
   * Holding more notes never turns a success into a failure: the answer
   * is monotone in the set of notes held, and ignores their order and
   * repetitions.
   */
  lemma MoreNotesStillTrigger(startTriggerTime: real, keyDatas: seq<InputKeyData>, keyNotes: seq<KeyNoteData>,
                              moreNotes: seq<KeyNoteData>, time: real)
    requires forall n :: n in keyNotes ==> n in moreNotes
    requires Simulate(startTriggerTime, keyDatas, keyNotes, time).triggered
    ensures Simulate(startTriggerTime, keyDatas, moreNotes, time) == Simulate(startTriggerTime, keyDatas, keyNotes, time)
  {
    assert keyNotes[0] in moreNotes;
  }

  /** A record with no positive duration stays live at every offset from its start on. */
  lemma OpenEndedRecord(kd: InputKeyData, curTime: real)
    requires kd.Duration <= 0.0
    ensures Covers(kd, curTime) <==> kd.StartTime <= curTime
  {
  }

  class InputProcessor {
    /** The time of the anchoring call, or a negative value while unset. */
    var startTriggerTime: real
    /** The timeline; a public list the caller fills in. */
    var KeyDatas: seq<InputKeyData>

    constructor ()
      ensures KeyDatas == [] && startTriggerTime == Unanchored
    {
      KeyDatas := [];
      startTriggerTime := Unanchored;
    }

    /**
     * Checks whether the combo is detected at `time`: the live records are
     * scanned in order, and for each the held notes are searched for its
     * note. The timeline itself is not changed.
     */
    method SimulateCombos(keyNotes: seq<KeyNoteData>, time: real) returns (ret: bool)
      modifies this
      ensures KeyDatas == old(KeyDatas)
      ensures Outcome(ret, startTriggerTime) == Simulate(old(startTriggerTime), KeyDatas, keyNotes, time)
    {
      if |KeyDatas| == 0 || |keyNotes| == 0 {
        return false;
      }
      ret := true;
      if startTriggerTime < 0.0 {
        startTriggerTime := time;
      }
      var curTime := time - startTriggerTime;
      var validKeys := ValidKeys(KeyDatas, curTime);
      if |validKeys| > 0 {
        var i := 0;
        while i < |validKeys|
          invariant 0 <= i <= |validKeys|
          invariant ret <==> forall j :: 0 <= j < i ==> validKeys[j].KeyNote in keyNotes
        {
          var isTriggered := false;
          var key := 0;
          while key < |keyNotes|
            invariant 0 <= key <= |keyNotes|
            invariant !isTriggered && validKeys[i].KeyNote !in keyNotes[..key]
          {
            if validKeys[i].KeyNote == keyNotes[key] {
              isTriggered := true;
              break;
            }
            assert keyNotes[..key + 1] == keyNotes[..key] + [keyNotes[key]];
            key := key + 1;
          }
          assert isTriggered <==> validKeys[i].KeyNote in keyNotes by {
            if !isTriggered {
              assert keyNotes[..key] == keyNotes;
            }
          }
          ret := ret && isTriggered;
          i := i + 1;
        }
      } else {
        ret := false;
      }
    }

    /** Unsets the anchor; the next call anchors again. */
    method ResetTriggerTime()
      modifies this
      ensures startTriggerTime == Unanchored && KeyDatas == old(KeyDatas)
    {
      startTriggerTime := Unanchored;
    }
  }
}
