/** Channel registration, `add_new_channel` in add_channel.py: four answers
    typed at the terminal become one active row of the `channels` table,
    whose primary key is the channel id and whose uploads playlist id is
    unique. The terminal is replaced by the four answer lines. */
module Registration {
  import opened Text
  import opened Records

  /** The four lines the operator types, without their line ends. */
  datatype Answers = Answers(channelId: string, channelName: string, uploadsId: string, sourceChoice: string)

  /** `f"UU{channel_id[2:]}"`: the channel id with its first two characters
      replaced by `UU`; a slice past the end is empty. */
  function DefaultUploadsId(channelId: string): (r: string)
    ensures |r| >= 2 && r[..2] == "UU"
    ensures |channelId| >= 2 ==> |r| == |channelId| && r[2..] == channelId[2..]
    ensures |channelId| < 2 ==> r == "UU"
  {
    "UU" + (if |channelId| >= 2 then channelId[2..] else "")
  }

  /** Distinct `UC…` channel ids get distinct default playlists: the default
      cannot by itself make two channels collide on the unique column. */
  lemma DefaultUploadsIdInjective(a: string, b: string)
    requires |a| >= 2 && |b| >= 2 && a[..2] == "UC" && b[..2] == "UC"
    requires a != b
    ensures DefaultUploadsId(a) != DefaultUploadsId(b)
  {
    assert a == a[..2] + a[2..] && b == b[..2] + b[2..];
  }

  /** The uploads playlist id: the stripped answer, or the default when
      nothing but whitespace was typed. */
  function UploadsChoice(answer: string, channelId: string): (r: string)
    ensures AllSpace(answer) ==> r == DefaultUploadsId(channelId)
    ensures !AllSpace(answer) ==> r == Strip(answer)
    ensures !AllSpace(answer) ==> r != [] && !IsSpace(r[0]) && !IsSpace(r[|r| - 1])
  {
    var typed := Strip(answer);
    if typed == [] then DefaultUploadsId(channelId) else typed
  }

  /** An answer that is already stripped and non-blank is taken verbatim. */
  lemma TypedUploadsIdKept(answer: string, channelId: string)
    requires answer != [] && !IsSpace(answer[0]) && !IsSpace(answer[|answer| - 1])
    ensures UploadsChoice(answer, channelId) == answer
  {
  }

  /** `recipe_source`: the pinned comment only for the answer `2`; every
      other answer, the empty one included, picks the description. */
  function SourceChoice(answer: string): (r: string)
    ensures r == PinnedCommentSource || r == DescriptionSource
    ensures r == PinnedCommentSource <==> Strip(answer) == "2"
  {
    if Strip(answer) == "2" then PinnedCommentSource else DescriptionSource
  }

  /** The row the answers describe: stripped id and name, active at once. */
  function NewChannel(answers: Answers): (c: Channel)
    ensures c.isActive
    ensures c.channelId == Strip(answers.channelId) && c.channelName == Strip(answers.channelName)
    ensures c.uploadsPlaylistId == UploadsChoice(answers.uploadsId, c.channelId)
    ensures c.recipeSource == PinnedCommentSource <==> Strip(answers.sourceChoice) == "2"
  {
    var channelId := Strip(answers.channelId);
    Channel(channelId, Strip(answers.channelName), UploadsChoice(answers.uploadsId, channelId), true,
            SourceChoice(answers.sourceChoice))
  }

  /** The table's two key constraints: no two rows share a channel id or an
      uploads playlist id. */
  predicate KeysUnique(table: seq<Channel>) {
    forall i, j :: 0 <= i < j < |table| ==>
      table[i].channelId != table[j].channelId && table[i].uploadsPlaylistId != table[j].uploadsPlaylistId
  }

  /** A row the insert would collide with. */
  predicate Collides(table: seq<Channel>, c: Channel) {
    exists d :: d in table && (d.channelId == c.channelId || d.uploadsPlaylistId == c.uploadsPlaylistId)
  }

  /** The table after the command, and whether the commit went through. */
  datatype Registration = Registration(table: seq<Channel>, added: bool)

  /** `add_new_channel`: the insert commits when it breaks neither key
      constraint; otherwise it is rolled back and the table is unchanged. */
  function AddChannel(table: seq<Channel>, answers: Answers): (r: Registration)
    ensures r.added <==> !Collides(table, NewChannel(answers))
    ensures r.added ==> r.table == table + [NewChannel(answers)]
    ensures !r.added ==> r.table == table
  {
    var c := NewChannel(answers);
    if Collides(table, c) then Registration(table, false) else Registration(table + [c], true)
  }

  /** Registration never breaks the key constraints, and a registered
      channel is among those the collectors scan. */
  lemma AddChannelKeepsKeys(table: seq<Channel>, answers: Answers)
    requires KeysUnique(table)
    ensures KeysUnique(AddChannel(table, answers).table)
    ensures AddChannel(table, answers).added ==> NewChannel(answers) in ActiveChannels(AddChannel(table, answers).table)
  {
    var r := AddChannel(table, answers);
    var c := NewChannel(answers);
    if r.added {
      forall i, j | 0 <= i < j < |r.table|
        ensures r.table[i].channelId != r.table[j].channelId
        ensures r.table[i].uploadsPlaylistId != r.table[j].uploadsPlaylistId
      {
        if j == |table| {
          assert r.table[i] in table;
        }
      }
      assert c in r.table;
    }
  }
}
