/**
 The wiring between logical joints, the control groups, and the motor words of the
 process-data image.
 */
module E2JointMap {

  const JOINT_COUNT: nat := 23
  const GROUP_COUNT: nat := 5
  const MAX_SLOTS: nat := 6

  datatype Channel = Channel(joint: nat, group: nat, slot: nat, directPd: bool)

  /** `kE2JointChannels`. */
  const CHANNELS: seq<Channel> := [
    Channel(0, 0, 0, true), Channel(1, 0, 1, true), Channel(2, 0, 2, true), Channel(3, 0, 3, true),
    Channel(4, 1, 0, true), Channel(5, 1, 1, true), Channel(6, 1, 2, true), Channel(7, 1, 3, true),
    Channel(8, 3, 0, true), Channel(9, 3, 1, true), Channel(10, 3, 2, true), Channel(11, 3, 3, true),
    Channel(12, 3, 4, false), Channel(13, 3, 5, false),
    Channel(14, 2, 0, true), Channel(15, 2, 1, true), Channel(16, 2, 2, true), Channel(17, 2, 3, true),
    Channel(18, 2, 4, false), Channel(19, 2, 5, false),
    Channel(20, 4, 0, true), Channel(21, 4, 1, false), Channel(22, 4, 2, false)]

  /** `kMotorCounts`. */
  const MOTOR_COUNTS: seq<nat> := [4, 4, 6, 6, 3]

  predicate Motor(group: nat, slot: nat) {
    group < GROUP_COUNT && slot < MOTOR_COUNTS[group]
  }

  function JointAt(group: nat, slot: nat): (joint: nat)
    requires Motor(group, slot)
    ensures joint < JOINT_COUNT
  {
    [0, 4, 14, 8, 20][group] + slot
  }

  /** The table is a bijection between the joints and the motors: entry `c` is joint
      `c`, and every motor of every group belongs to exactly one joint. */
  lemma TableIsBijection()
    ensures |CHANNELS| == JOINT_COUNT && |MOTOR_COUNTS| == GROUP_COUNT
    ensures forall c :: 0 <= c < JOINT_COUNT ==>
      && CHANNELS[c].joint == c && Motor(CHANNELS[c].group, CHANNELS[c].slot)
      && JointAt(CHANNELS[c].group, CHANNELS[c].slot) == c
      && (CHANNELS[c].directPd <==> c !in {12, 13, 18, 19, 21, 22})
    ensures forall g: nat, s: nat {:trigger JointAt(g, s)} :: Motor(g, s) ==>
      CHANNELS[JointAt(g, s)].group == g && CHANNELS[JointAt(g, s)].slot == s
  {
    forall g: nat, s: nat | Motor(g, s)
      ensures CHANNELS[JointAt(g, s)].group == g && CHANNELS[JointAt(g, s)].slot == s
    {
      RowOf(g, s);
    }
  }

  lemma RowOf(g: nat, s: nat)
    requires Motor(g, s)
    ensures CHANNELS[JointAt(g, s)].group == g && CHANNELS[JointAt(g, s)].slot == s
  {
    if g == 0 {
      assert s == 0 || s == 1 || s == 2 || s == 3;
    } else if g == 1 {
      assert s == 0 || s == 1 || s == 2 || s == 3;
    } else if g == 4 {
      assert s == 0 || s == 1 || s == 2;
    } else {
      assert s == 0 || s == 1 || s == 2 || s == 3 || s == 4 || s == 5;
    }
  }

  /** A motor word of the process-data image: which node and which of its nine words
      carries which motor; the last argument is the joint the word is packed with. */
  datatype Word = Word(node: nat, motor: nat, group: nat, slot: nat, joint: nat)

  const WORDS: seq<Word> := [
    Word(1, 1, 3, 0, 8), Word(1, 2, 3, 1, 9), Word(1, 3, 3, 2, 10), Word(1, 4, 3, 3, 11),
    Word(1, 5, 3, 4, 12), Word(1, 6, 3, 5, 13), Word(1, 7, 0, 0, 0), Word(1, 8, 0, 1, 1), Word(1, 9, 0, 2, 2),
    Word(2, 1, 2, 0, 14), Word(2, 2, 2, 1, 15), Word(2, 3, 2, 2, 16), Word(2, 4, 2, 3, 17),
    Word(2, 5, 2, 4, 18), Word(2, 6, 2, 5, 19), Word(2, 7, 0, 3, 3),
    Word(3, 1, 1, 0, 4), Word(3, 2, 1, 1, 5), Word(3, 3, 1, 2, 6), Word(3, 4, 1, 3, 7),
    Word(3, 7, 4, 0, 20), Word(3, 8, 4, 1, 21), Word(3, 9, 4, 2, 22)]

  function WordOf(c: nat): (w: nat)
    requires c < JOINT_COUNT
    ensures w < |WORDS|
  {
    [6, 7, 8, 15, 16, 17, 18, 19, 0, 1, 2, 3, 4, 5, 9, 10, 11, 12, 13, 14, 20, 21, 22][c]
  }

  /** The place of a word in the order of the image, which skips the words of node 2
      and node 3 that carry no motor. */
  function PlaceOf(node: nat, motor: nat): int {
    if node == 1 then motor - 1 else if node == 2 then motor + 8 else if motor <= 4 then motor + 15 else motor + 13
  }

  lemma WordIsWired(w: nat)
    requires w < |WORDS|
    ensures WORDS[w].joint < JOINT_COUNT && PlaceOf(WORDS[w].node, WORDS[w].motor) == w
    ensures WordOf(WORDS[w].joint) == w
    ensures var channel := CHANNELS[WORDS[w].joint]; channel.group == WORDS[w].group && channel.slot == WORDS[w].slot
  {
  }

  lemma JointIsCarried(c: nat)
    requires c < JOINT_COUNT
    ensures WORDS[WordOf(c)].joint == c
  {
  }

  /** Every joint is carried by exactly one motor word, with the group and slot the
      joint table gives it, and no two entries are the same word. */
  lemma WordsAgreeWithTable()
    ensures |WORDS| == JOINT_COUNT
    ensures forall w :: 0 <= w < |WORDS| ==>
      && WORDS[w].joint < JOINT_COUNT && PlaceOf(WORDS[w].node, WORDS[w].motor) == w && WordOf(WORDS[w].joint) == w
      && CHANNELS[WORDS[w].joint].group == WORDS[w].group && CHANNELS[WORDS[w].joint].slot == WORDS[w].slot
    ensures forall c :: 0 <= c < JOINT_COUNT ==> WORDS[WordOf(c)].joint == c
  {
    forall w: nat | w < |WORDS|
      ensures WORDS[w].joint < JOINT_COUNT && PlaceOf(WORDS[w].node, WORDS[w].motor) == w
      ensures WordOf(WORDS[w].joint) == w
      ensures CHANNELS[WORDS[w].joint].group == WORDS[w].group && CHANNELS[WORDS[w].joint].slot == WORDS[w].slot
    {
      WordIsWired(w);
    }
    forall c: nat | c < JOINT_COUNT ensures WORDS[WordOf(c)].joint == c {
      JointIsCarried(c);
    }
  }
}
