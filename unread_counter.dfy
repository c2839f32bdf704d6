/** Unread-message counts per chat id on the client
    (public/js/modules/notifications/unreadCounter.js) and the label of the
    badge that shows them. */
module UnreadCounter {
  import opened Common

  /** `unreadCounts.get(chatId) || 0`. */
  function CountOf(counts: map<string, nat>, chatId: string): nat
  {
    if chatId in counts && counts[chatId] != 0 then counts[chatId] else 0
  }

  /** The counts after one increment of chatId: that count goes up by one,
      every other stays. */
  function Bumped(counts: map<string, nat>, chatId: string): (r: map<string, nat>)
    ensures CountOf(r, chatId) == CountOf(counts, chatId) + 1
    ensures forall other :: other != chatId ==> CountOf(r, other) == CountOf(counts, other)
  {
    counts[chatId := CountOf(counts, chatId) + 1]
  }

  /** The counts after n increments of chatId. */
  function IncrementTimes(counts: map<string, nat>, chatId: string, n: nat): map<string, nat>
  {
    if n == 0 then counts else Bumped(IncrementTimes(counts, chatId, n - 1), chatId)
  }

  /** n increments raise the count by n. */
  lemma {:induction false} CountAfterIncrements(counts: map<string, nat>, chatId: string, n: nat)
    ensures CountOf(IncrementTimes(counts, chatId, n), chatId) == CountOf(counts, chatId) + n
  {
    if n > 0 {
      CountAfterIncrements(counts, chatId, n - 1);
    }
  }

  /** n increments after a clear give a count of exactly n, and no badge
      is left after a clear. */
  lemma CountAfterClear(counts: map<string, nat>, chatId: string, n: nat)
    ensures CountOf(IncrementTimes(counts - {chatId}, chatId, n), chatId) == n
    ensures BadgeLabel(CountOf(counts - {chatId}, chatId)).None?
  {
    CountAfterIncrements(counts - {chatId}, chatId, n);
  }

  class Counter {
    var counts: map<string, nat>

    /** The empty Map created when the module loads. */
    constructor ()
      ensures counts == map[]
    {
      counts := map[];
    }

    /** `incrementUnreadCount(chatId)`. */
    method IncrementUnreadCount(chatId: string)
      modifies this
      ensures counts == Bumped(old(counts), chatId)
      ensures GetUnreadCount(chatId) == old(GetUnreadCount(chatId)) + 1
      ensures forall other :: other != chatId ==> GetUnreadCount(other) == old(GetUnreadCount(other))
    {
      var current := CountOf(counts, chatId);
      counts := counts[chatId := current + 1];
    }

    /** `clearUnreadCount(chatId)`. */
    method ClearUnreadCount(chatId: string)
      modifies this
      ensures counts == old(counts) - {chatId}
      ensures GetUnreadCount(chatId) == 0
      ensures forall other :: other != chatId ==> GetUnreadCount(other) == old(GetUnreadCount(other))
    {
      counts := counts - {chatId};
    }

    /** `getUnreadCount(chatId)`: zero for a chat never incremented. */
    function GetUnreadCount(chatId: string): (n: nat)
      reads this
      ensures chatId !in counts ==> n == 0
    {
      CountOf(counts, chatId)
    }
  }

  function DigitChar(d: nat): char
    requires d < 10
  {
    "0123456789"[d]
  }

  function DigitValue(c: char): nat
  {
    if '0' <= c <= '9' then (c as int - '0' as int) as nat else 0
  }

  /** `n.toString()` for a natural number. */
  function DecimalString(n: nat): (s: string)
    ensures 1 <= |s|
    ensures forall k :: 0 <= k < |s| ==> '0' <= s[k] <= '9'
    ensures n < 10 ==> |s| == 1
    ensures 10 <= n < 100 ==> |s| == 2
    decreases n
  {
    if n < 10 then [DigitChar(n)] else DecimalString(n / 10) + [DigitChar(n % 10)]
  }

  /** Reading a string of decimal digits back as a number. */
  function ParseDecimal(s: string): nat
  {
    if s == [] then 0 else ParseDecimal(s[..|s| - 1]) * 10 + DigitValue(s[|s| - 1])
  }

  /** A digit reads back as itself. */
  lemma DigitRoundTrip(d: nat)
    requires d < 10
    ensures DigitValue(DigitChar(d)) == d
  {
    assert "0123456789"[d] as int == '0' as int + d by {
      if d < 5 {
        assert d == 0 || d == 1 || d == 2 || d == 3 || d == 4;
      } else {
        assert d == 5 || d == 6 || d == 7 || d == 8 || d == 9;
      }
    }
  }

  /** The decimal text of a number reads back as that number. */
  lemma {:induction false} DecimalRoundTrip(n: nat)
    ensures ParseDecimal(DecimalString(n)) == n
    decreases n
  {
    var s := DecimalString(n);
    if n < 10 {
      DigitRoundTrip(n);
      assert s[..0] == [];
    } else {
      var front := DecimalString(n / 10);
      assert s == front + [DigitChar(n % 10)];
      assert s[..|s| - 1] == front;
      DecimalRoundTrip(n / 10);
      DigitRoundTrip(n % 10);
    }
  }

  /** The badge rule of `updateBadgeForItem`: no badge at zero, "99+" above
      99, the decimal count otherwise. */
  function BadgeLabel(count: int): (r: Option<string>)
    ensures r.None? <==> count <= 0
    ensures count > 99 ==> r == Some("99+")
    ensures r.Some? ==> 1 <= |r.value| <= 3
    ensures 0 < count <= 99 ==> |r.value| <= 2 && ParseDecimal(r.value) == count
  {
    if count > 0 then
      if count > 99 then Some("99+")
      else
        DecimalRoundTrip(count);
        Some(DecimalString(count))
    else None
  }
}
