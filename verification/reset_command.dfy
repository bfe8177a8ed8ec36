/**
 * The `/reset` slash command: forgets the caller's private conversation and
 * says, privately, whether there was one to forget.
 */
module ResetCommand {
  import opened JsText
  import opened History
  import opened Interactions

  const ClearedText: Str := Lit("✅ Đã xóa lịch sử hội thoại. Bạn có thể bắt đầu cuộc trò chuyện mới!")
  const NothingText: Str := Lit("ℹ️ Chưa có lịch sử hội thoại nào.")

  /** The store afterwards and the one response made. */
  datatype Outcome = Outcome(entries: map<Key, seq<Turn>>, response: Action)

  /** What `/reset` does for the user `userId`. */
  function Reset(entries: map<Key, seq<Turn>>, userId: Key): Outcome {
    if userId in entries then Outcome(entries - {userId}, Reply(ClearedText, true))
    else Outcome(entries, Reply(NothingText, true))
  }

  /**
   * `execute` on the store: delete the caller's entry if there is one,
   * then reply ephemerally with which of the two cases it was.
   */
  method Execute(store: HistoryStore, userId: Key) returns (response: Action)
    modifies store
    ensures var o := Reset(old(store.entries), userId);
      store.entries == o.entries && response == o.response
  {
    if userId in store.entries {
      store.Delete(userId);
      response := Reply(ClearedText, true);
    } else {
      response := Reply(NothingText, true);
    }
  }

  /**
   * Afterwards the caller has no history, every other user's history is as
   * it was, and the only response is an ephemeral reply that reports a
   * deletion exactly when the caller had a history.
   */
  lemma ResetForgetsOnlyCaller(entries: map<Key, seq<Turn>>, userId: Key)
    ensures var o := Reset(entries, userId);
      && userId !in o.entries
      && (forall c :: c != userId ==> (c in o.entries <==> c in entries))
      && (forall c :: c != userId && c in entries ==> o.entries[c] == entries[c])
      && o.response.Reply? && o.response.ephemeral
      && (o.response.text == ClearedText <==> userId in entries)
      && (o.response.text == NothingText <==> userId !in entries)
  {
    assert |ClearedText| != |NothingText|;
  }

  /** A second `/reset` finds nothing to delete and changes nothing. */
  lemma ResetTwice(entries: map<Key, seq<Turn>>, userId: Key)
    ensures var once := Reset(entries, userId).entries;
      Reset(once, userId) == Outcome(once, Reply(NothingText, true))
  {
  }
}
