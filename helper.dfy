/**
  The chat statistics of `helper.py`: each view is computed from the table of
  parsed messages, optionally restricted to one sender.
*/
module ChatStats {
  import opened Sequences
  import opened Text
  import opened Counting
  import opened Grouping

  /** One parsed chat message, with the timestamp fields the parser derived for it. */
  datatype Record = Record(
    user: string,
    message: string,
    year: int,
    monthNum: int,
    month: string,
    dayName: string,
    onlyDate: int,  // the calendar date, as a day number
    period: string)

  /** The pseudo-user that selects every sender. */
  const Overall: string := "Overall"
  /** The sender the export gives to system notices (joins, leaves, subject changes). */
  const GroupNotification: string := "group_notification"
  /** The text the export puts in place of an attachment. */
  const MediaOmitted: string := "<Media omitted>\n"

  // ---------------------------------------------------------------------------
  // Columns of the table

  function Users(df: seq<Record>): (c: seq<string>)
    ensures |c| == |df| && forall i :: 0 <= i < |df| ==> c[i] == df[i].user
  {
    seq(|df|, i requires 0 <= i < |df| => df[i].user)
  }

  function Messages(df: seq<Record>): (c: seq<string>)
    ensures |c| == |df| && forall i :: 0 <= i < |df| ==> c[i] == df[i].message
  {
    seq(|df|, i requires 0 <= i < |df| => df[i].message)
  }

  function DayNames(df: seq<Record>): (c: seq<string>)
    ensures |c| == |df| && forall i :: 0 <= i < |df| ==> c[i] == df[i].dayName
  {
    seq(|df|, i requires 0 <= i < |df| => df[i].dayName)
  }

  function Months(df: seq<Record>): (c: seq<string>)
    ensures |c| == |df| && forall i :: 0 <= i < |df| ==> c[i] == df[i].month
  {
    seq(|df|, i requires 0 <= i < |df| => df[i].month)
  }

  lemma DayNamesCover(rows: seq<Record>)
    ensures forall x :: x in rows ==> x.dayName in DayNames(rows)
  {
    forall x | x in rows ensures x.dayName in DayNames(rows) {
      var i :| 0 <= i < |rows| && rows[i] == x;
      assert DayNames(rows)[i] == x.dayName;
    }
  }

  lemma MonthsCover(rows: seq<Record>)
    ensures forall x :: x in rows ==> x.month in Months(rows)
  {
    forall x | x in rows ensures x.month in Months(rows) {
      var i :| 0 <= i < |rows| && rows[i] == x;
      assert Months(rows)[i] == x.month;
    }
  }

  // ---------------------------------------------------------------------------
  // filter_by_user

  /**
    The rows of the selected sender, in order; `Overall` keeps every row.
  */
  function FilterByUser(selected: string, df: seq<Record>): (r: seq<Record>)
    ensures selected == Overall ==> r == df
    ensures selected != Overall ==> IsSubsequence(r, df)
    ensures selected != Overall ==> forall x :: x in r ==> x.user == selected
    ensures selected != Overall ==> forall x: Record :: x.user == selected ==> multiset(r)[x] == multiset(df)[x]
  {
    if selected != Overall then Filter(df, (x: Record) => x.user == selected) else df
  }

  /** A sender's message count is the number of times the sender occurs in the `user` column. */
  lemma {:induction false} FilterByUserSize(selected: string, df: seq<Record>)
    ensures selected == Overall ==> |FilterByUser(selected, df)| == |df|
    ensures selected != Overall ==> |FilterByUser(selected, df)| == multiset(Users(df))[selected]
  {
    if selected != Overall && df != [] {
      FilterByUserSize(selected, df[1..]);
      assert Users(df) == [df[0].user] + Users(df[1..]);
    }
  }

  // ---------------------------------------------------------------------------
  // fetch_stats

  /** The message, word and media counts of `fetch_stats` (the link count is not modelled). */
  datatype Stats = Stats(messages: nat, words: nat, media: nat)

  /** `[word for message in df['message'] for word in message.split()]` */
  function Words(df: seq<Record>): seq<string>
  {
    if df == [] then [] else Split(df[0].message) + Words(df[1..])
  }

  predicate IsMedia(r: Record)
  {
    r.message == MediaOmitted
  }

  lemma {:induction false} MediaCount(df: seq<Record>)
    ensures |Filter(df, IsMedia)| == multiset(Messages(df))[MediaOmitted]
  {
    if df != [] {
      MediaCount(df[1..]);
      assert Messages(df) == [df[0].message] + Messages(df[1..]);
    }
  }

  lemma {:induction false} WordsAppend(a: seq<Record>, b: seq<Record>)
    ensures Words(a + b) == Words(a) + Words(b)
  {
    if a == [] {
      assert a + b == b;
    } else {
      assert (a + b)[1..] == a[1..] + b;
      WordsAppend(a[1..], b);
    }
  }

  function FetchStats(selected: string, df: seq<Record>): (s: Stats)
    ensures s.messages == |FilterByUser(selected, df)|
    ensures selected == Overall ==> s.messages == |df|
    ensures selected != Overall ==> s.messages == multiset(Users(df))[selected]
    ensures s.words == |Words(FilterByUser(selected, df))|
    ensures s.media == multiset(Messages(FilterByUser(selected, df)))[MediaOmitted]
    ensures s.media <= s.messages
  {
    var d := FilterByUser(selected, df);
    MediaCount(d);
    FilterByUserSize(selected, df);
    Stats(|d|, |Words(d)|, |Filter(d, IsMedia)|)
  }

  /** A message of two tokens, the first followed by a space and the second by a line break. */
  lemma SplitTwoWords(head: string, tail: string)
    requires IsToken(head) && IsToken(tail)
    ensures Split(head + [' '] + (tail + ['\n'])) == [head, tail]
  {
    SplitFromToken(head, []);
    SplitFromToken(tail, []);
    assert [] + head == head;
    assert [] + tail == tail;
    SplitFromAroundSpace(tail, '\n', [], []);
    assert tail + ['\n'] + [] == tail + ['\n'];
    SplitFromAroundSpace(head, ' ', tail + ['\n'], []);
  }

  /** The media placeholder counts as two words: `<Media` and `omitted>`. */
  lemma MediaPlaceholderWords()
    ensures Split(MediaOmitted) == ["<Media", "omitted>"]
  {
    var head: string := "<Media";
    var tail: string := "omitted>";
    assert IsToken(head) && IsToken(tail);
    assert head + [' '] + (tail + ['\n']) == MediaOmitted;
    SplitTwoWords(head, tail);
  }

  /** Words and media placeholders of a two-row table. */
  lemma TwoRowCounts(a: Record, b: Record)
    ensures Words([a, b]) == Split(a.message) + Split(b.message)
    ensures Messages([a, b]) == [a.message, b.message]
  {
    assert [a, b][1..] == [b] && [b][1..] == [];
    assert Words([b]) == Split(b.message) + [];
  }

  /** Stat counts over a two-message chat, one of them a media placeholder. */
  lemma FetchStatsExample(a: Record, b: Record)
    requires a.user == "A" && a.message == "hi"
    requires b.user == "B" && b.message == MediaOmitted
    ensures FetchStats(Overall, [a, b]) == Stats(2, 3, 1)
  {
    var s := FetchStats(Overall, [a, b]);
    MediaPlaceholderWords();
    assert IsToken(a.message);
    SplitToken(a.message);
    TwoRowCounts(a, b);
    assert a.message != MediaOmitted;
    assert multiset([a.message, b.message])[MediaOmitted] == 1;
    assert s.media == 1;
    assert s.words == 3;
  }

  /** The message count over all senders is the sum of the senders' own counts. */
  function MessagesOfAll(users: seq<string>, df: seq<Record>): nat
  {
    if users == [] then 0 else FetchStats(users[0], df).messages + MessagesOfAll(users[1..], df)
  }

  lemma {:induction false} MessagesOfAllCounts(users: seq<string>, df: seq<Record>)
    requires Overall !in users
    ensures MessagesOfAll(users, df) == SumCounts(users, Users(df))
  {
    if users != [] {
      MessagesOfAllCounts(users[1..], df);
    }
  }

  lemma MessagesSplitBySender(users: seq<string>, df: seq<Record>)
    requires Distinct(users) && Overall !in users
    requires forall r :: r in df ==> r.user in users
    ensures MessagesOfAll(users, df) == FetchStats(Overall, df).messages
  {
    MessagesOfAllCounts(users, df);
    SumCountsPartition(users, Users(df));
  }

  // ---------------------------------------------------------------------------
  // most_busy_users

  /**
    `df['user'].value_counts().head()`: the five most active senders with their
    message counts, busiest first.
  */
  function MostBusyUsers(df: seq<Record>): (r: seq<Entry<string>>)
    ensures |r| <= 5
    ensures DistinctKeys(r)
    ensures forall i :: 0 <= i < |r| ==> r[i].key in Users(df) && r[i].count == multiset(Users(df))[r[i].key]
    ensures forall i, j :: 0 <= i < j < |r| ==> r[i].count >= r[j].count
    ensures forall u :: u in Users(df) && u !in KeysOf(r) ==>
      |r| == 5 && forall i :: 0 <= i < |r| ==> r[i].count >= multiset(Users(df))[u]
    ensures Total(r) <= |df|
  {
    MostCommon(Users(df), 5)
  }

  /** Each busiest-sender count is that sender's own message count. */
  lemma MostBusyUsersMatchStats(df: seq<Record>, i: nat)
    requires i < |MostBusyUsers(df)| && MostBusyUsers(df)[i].key != Overall
    ensures MostBusyUsers(df)[i].count == FetchStats(MostBusyUsers(df)[i].key, df).messages
  {
  }

  // ---------------------------------------------------------------------------
  // most_common_words and the word filter of create_wordcloud

  /** The rows whose words are counted: no system notices, no media placeholders. */
  predicate CountsForWords(r: Record)
  {
    r.user != GroupNotification && r.message != MediaOmitted
  }

  function WordRows(selected: string, df: seq<Record>): (rows: seq<Record>)
  {
    Filter(FilterByUser(selected, df), CountsForWords)
  }

  /**
    `[word for word in message.lower().split() if word not in stop_words]`,
    where `stop_words` is the text of the stop-word file, so `in` tests for a
    substring.
  */
  function KeptTokens(message: string, stopWords: string): (ws: seq<string>)
  {
    Filter(Split(Lower(message)), (w: string) => !IsSubstring(w, stopWords))
  }

  /** Every kept word is a lower-case token of the message that does not occur in the stop-word text. */
  lemma KeptTokensSound(message: string, stopWords: string, w: string)
    requires w in KeptTokens(message, stopWords)
    ensures w in Split(Lower(message))
    ensures IsToken(w) && IsLowerCase(w)
    ensures !IsSubstring(w, stopWords)
  {
    SplitTokens(Lower(message));
    SplitLowerIsLowerCase(message, w);
  }

  // ---------------------------------------------------------------------------
  // read_stop_words

  datatype Option<T> = None | Some(value: T)

  /**
    `read_stop_words`: the whole text of the stop-word file, or the empty text
    when no file exists at the path. The file system is the parameter `file`:
    the file's contents, or `None` when it is missing.
  */
  function ReadStopWords(file: Option<string>): string
  {
    match file
    case None => []
    case Some(contents) => contents
  }

  /** The kept words of the counted rows, row after row. */
  function KeptWords(rows: seq<Record>, stopWords: string): seq<string>
  {
    if rows == [] then [] else KeptTokens(rows[0].message, stopWords) + KeptWords(rows[1..], stopWords)
  }

  lemma {:induction false} KeptWordsSource(rows: seq<Record>, stopWords: string, w: string)
    requires w in KeptWords(rows, stopWords)
    ensures exists r :: r in rows && w in KeptTokens(r.message, stopWords)
  {
    if w !in KeptTokens(rows[0].message, stopWords) {
      KeptWordsSource(rows[1..], stopWords, w);
    }
  }

  /** All lower-cased tokens of the rows, row after row. */
  function LowerWords(rows: seq<Record>): seq<string>
  {
    if rows == [] then [] else Split(Lower(rows[0].message)) + LowerWords(rows[1..])
  }

  /**
    The three word lists are nested comprehensions over the rows: each is the
    concatenation of one list per row.
  */
  lemma {:induction false} WordListsFlatMap(rows: seq<Record>, stopWords: string)
    ensures Words(rows) == FlatMap(rows, (r: Record) => Split(r.message))
    ensures LowerWords(rows) == FlatMap(rows, (r: Record) => Split(Lower(r.message)))
    ensures KeptWords(rows, stopWords) == FlatMap(rows, (r: Record) => KeptTokens(r.message, stopWords))
  {
    if rows != [] {
      WordListsFlatMap(rows[1..], stopWords);
    }
  }

  /**
    The filter drops exactly the tokens that occur in the stop-word text: every
    other token is kept as often as the messages hold it.
  */
  lemma {:induction false} KeptWordsCount(rows: seq<Record>, stopWords: string, w: string)
    ensures multiset(KeptWords(rows, stopWords))[w] ==
      if IsSubstring(w, stopWords) then 0 else multiset(LowerWords(rows))[w]
  {
    if rows != [] {
      KeptWordsCount(rows[1..], stopWords, w);
      var toks := Split(Lower(rows[0].message));
      var kept := KeptTokens(rows[0].message, stopWords);
      assert multiset(KeptWords(rows, stopWords)) == multiset(kept) + multiset(KeptWords(rows[1..], stopWords));
      assert multiset(LowerWords(rows)) == multiset(toks) + multiset(LowerWords(rows[1..]));
      if IsSubstring(w, stopWords) {
        assert w !in kept;
      }
    }
  }

  /** The kept words of the selected sender's counted rows: what `most_common_words` counts. */
  function CountedWords(selected: string, df: seq<Record>, stopWords: string): seq<string>
  {
    KeptWords(WordRows(selected, df), stopWords)
  }

  /**
    `most_common_words`: the twenty most frequent kept words, highest count
    first, equal counts in first-seen order.
  */
  function MostCommonWords(selected: string, df: seq<Record>, stopWords: string): (r: seq<Entry<string>>)
    ensures |r| <= 20
    ensures DistinctKeys(r)
    ensures forall i :: 0 <= i < |r| ==>
      r[i].key in CountedWords(selected, df, stopWords)
      && r[i].count == multiset(CountedWords(selected, df, stopWords))[r[i].key]
    ensures forall i, j :: 0 <= i < j < |r| ==> r[i].count >= r[j].count
    ensures forall i, j :: 0 <= i < j < |r| && r[i].count == r[j].count ==>
      FirstIndex(CountedWords(selected, df, stopWords), r[i].key)
        < FirstIndex(CountedWords(selected, df, stopWords), r[j].key)
    ensures forall w :: w in CountedWords(selected, df, stopWords) && w !in KeysOf(r) ==>
      |r| == 20 && forall i :: 0 <= i < |r| ==> Outranks(CountedWords(selected, df, stopWords), r[i].key, w)
  {
    MostCommon(CountedWords(selected, df, stopWords), 20)
  }

  /** Each reported count is the number of times the word occurs among the lower-cased tokens of the counted rows. */
  lemma MostCommonWordsCountTokens(selected: string, df: seq<Record>, stopWords: string, i: nat)
    requires i < |MostCommonWords(selected, df, stopWords)|
    ensures var e := MostCommonWords(selected, df, stopWords)[i];
      e.count == multiset(LowerWords(WordRows(selected, df)))[e.key]
  {
    var e := MostCommonWords(selected, df, stopWords)[i];
    KeptWordsSource(WordRows(selected, df), stopWords, e.key);
    var r :| r in WordRows(selected, df) && e.key in KeptTokens(r.message, stopWords);
    KeptTokensSound(r.message, stopWords, e.key);
    KeptWordsCount(WordRows(selected, df), stopWords, e.key);
  }

  /**
    Every word `most_common_words` reports is a lower-case token of a message of
    the selected sender that is neither a system notice nor a media
    placeholder, and it does not occur in the stop-word text.
  */
  lemma MostCommonWordsSound(selected: string, df: seq<Record>, stopWords: string, i: nat)
    requires i < |MostCommonWords(selected, df, stopWords)|
    ensures var w := MostCommonWords(selected, df, stopWords)[i].key;
      && IsToken(w) && IsLowerCase(w) && !IsSubstring(w, stopWords)
      && exists r :: r in FilterByUser(selected, df) && r.user != GroupNotification
           && r.message != MediaOmitted && w in Split(Lower(r.message))
  {
    var w := MostCommonWords(selected, df, stopWords)[i].key;
    KeptWordsSource(WordRows(selected, df), stopWords, w);
    var r :| r in WordRows(selected, df) && w in KeptTokens(r.message, stopWords);
    KeptTokensSound(r.message, stopWords, w);
  }

  /** With no stop-word file the text is empty, and no token is dropped. */
  lemma {:induction false} NoStopWordsKeepsAll(rows: seq<Record>)
    ensures KeptWords(rows, []) == LowerWords(rows)
  {
    if rows != [] {
      NoStopWordsKeepsAll(rows[1..]);
      SplitTokens(Lower(rows[0].message));
      forall w | w in Split(Lower(rows[0].message)) ensures !IsSubstring(w, []) {
        NothingInEmptyText(w);
      }
      FilterAll(Split(Lower(rows[0].message)), (w: string) => !IsSubstring(w, []));
    }
  }

  /** A missing stop-word file drops no word at all. */
  lemma MissingStopWordsKeepsAll(rows: seq<Record>)
    ensures KeptWords(rows, ReadStopWords(None)) == LowerWords(rows)
  {
    NoStopWordsKeepsAll(rows);
  }

  /** `remove_stop_words(message)`: the kept words joined with single spaces. */
  function RemoveStopWords(message: string, stopWords: string): string
  {
    JoinSpace(KeptTokens(message, stopWords))
  }

  /** Splitting a cleaned message gives back exactly its kept words. */
  lemma RemoveStopWordsSplit(message: string, stopWords: string)
    ensures Split(RemoveStopWords(message, stopWords)) == KeptTokens(message, stopWords)
  {
    SplitTokens(Lower(message));
    SplitJoinTokens(KeptTokens(message, stopWords));
  }

  /** `temp['message'] = temp['message'].apply(remove_stop_words)`, in place. */
  method RemoveStopWordsColumn(column: array<string>, stopWords: string)
    modifies column
    ensures forall i :: 0 <= i < column.Length ==> column[i] == RemoveStopWords(old(column[i]), stopWords)
  {
    for i := 0 to column.Length
      invariant forall k :: 0 <= k < i ==> column[k] == RemoveStopWords(old(column[k]), stopWords)
      invariant forall k :: i <= k < column.Length ==> column[k] == old(column[k])
    {
      column[i] := RemoveStopWords(column[i], stopWords);
    }
  }

  lemma {:induction false} CleanedColumnWords(rows: seq<Record>, cleaned: seq<string>, stopWords: string)
    requires |cleaned| == |rows|
    requires forall i :: 0 <= i < |rows| ==> cleaned[i] == RemoveStopWords(rows[i].message, stopWords)
    ensures FlatMap(cleaned, Split) == KeptWords(rows, stopWords)
  {
    if rows != [] {
      RemoveStopWordsSplit(rows[0].message, stopWords);
      CleanedColumnWords(rows[1..], cleaned[1..], stopWords);
    }
  }

  /** The message column after `remove_stop_words` has been applied to every row. */
  function CleanedMessages(rows: seq<Record>, stopWords: string): (c: seq<string>)
    ensures |c| == |rows| && forall i :: 0 <= i < |rows| ==> c[i] == RemoveStopWords(rows[i].message, stopWords)
  {
    seq(|rows|, i requires 0 <= i < |rows| => RemoveStopWords(rows[i].message, stopWords))
  }

  /**
    The text `create_wordcloud` hands to the word cloud
    (`temp['message'].str.cat(sep=" ")` after the stop words are removed): its
    whitespace tokens are exactly the words `most_common_words` counts, in
    order (the word cloud's own tokenisation of that text is not modelled).
  */
  method WordcloudText(selected: string, df: seq<Record>, stopWords: string) returns (text: string)
    ensures text == JoinSpace(CleanedMessages(WordRows(selected, df), stopWords))
    ensures Split(text) == KeptWords(WordRows(selected, df), stopWords)
    ensures forall w :: w in Split(text) ==> IsToken(w) && !IsSubstring(w, stopWords)
  {
    var temp := WordRows(selected, df);
    var column := new string[|temp|](i requires 0 <= i < |temp| => temp[i].message);
    RemoveStopWordsColumn(column, stopWords);
    assert column[..] == CleanedMessages(temp, stopWords);
    text := JoinSpace(column[..]);
    SplitJoinSpace(column[..]);
    CleanedColumnWords(temp, column[..], stopWords);
    forall w | w in Split(text) ensures IsToken(w) && !IsSubstring(w, stopWords) {
      KeptWordsSource(temp, stopWords, w);
      var r :| r in temp && w in KeptTokens(r.message, stopWords);
      KeptTokensSound(r.message, stopWords, w);
    }
  }

  // ---------------------------------------------------------------------------
  // emoji_helper

  /** `[c for c in message if c in emoji.EMOJI_DATA]`, the emoji set given as a parameter. */
  function EmojisIn(message: string, emojiSet: set<char>): (cs: seq<char>)
  {
    Filter(message, InSet(emojiSet))
  }

  /** The membership test `c in emoji_set`, as a function value. */
  function InSet(emojiSet: set<char>): char -> bool
  {
    c => c in emojiSet
  }

  /** The emoji list after `emojis.extend(...)` has run over every row, in order. */
  function EmojiList(rows: seq<Record>, emojiSet: set<char>): (cs: seq<char>)
    ensures forall c :: c in cs ==> c in emojiSet
  {
    if rows == [] then []
    else EmojiList(rows[..|rows| - 1], emojiSet) + EmojisIn(rows[|rows| - 1].message, emojiSet)
  }

  lemma MessagesSnoc(rows: seq<Record>)
    requires rows != []
    ensures Messages(rows) == Messages(rows[..|rows| - 1]) + [rows[|rows| - 1].message]
  {
  }

  lemma ConcatSnoc(ms: seq<string>, m: string)
    ensures Concat(ms + [m]) == Concat(ms) + m
  {
    ConcatAppend(ms, [m]);
    assert Concat([m]) == m + Concat([]);
    assert m + [] == m;
  }

  /** The emoji list holds the emoji of all the messages, in the order they are written. */
  lemma {:induction false} EmojiListIsFilter(rows: seq<Record>, emojiSet: set<char>)
    ensures EmojiList(rows, emojiSet) == EmojisIn(Concat(Messages(rows)), emojiSet)
  {
    if rows != [] {
      var n := |rows| - 1;
      var before := Concat(Messages(rows[..n]));
      EmojiListIsFilter(rows[..n], emojiSet);
      MessagesSnoc(rows);
      ConcatSnoc(Messages(rows[..n]), rows[n].message);
      FilterAppend(before, rows[n].message, InSet(emojiSet));
    }
  }

  /**
    `emoji_helper`: the full frequency table of the emoji in the selected
    sender's messages, most frequent first, equal counts in first-seen order.
  */
  method EmojiHelper(selected: string, df: seq<Record>, emojiSet: set<char>) returns (table: seq<Entry<char>>)
    ensures var emojis := EmojiList(FilterByUser(selected, df), emojiSet);
      table == MostCommon(emojis, |Tally(emojis)|)
    ensures forall i :: 0 <= i < |table| ==> table[i].key in emojiSet
    ensures DistinctKeys(table)
    ensures forall i, j :: 0 <= i < j < |table| ==> table[i].count >= table[j].count
    ensures var emojis := EmojiList(FilterByUser(selected, df), emojiSet);
      && (forall i :: 0 <= i < |table| ==> table[i].count == multiset(emojis)[table[i].key])
      && (forall c :: c in emojis ==> c in KeysOf(table))
      && Total(table) == |emojis|
    ensures forall i :: 0 <= i < |table| ==>
      table[i].count == multiset(Concat(Messages(FilterByUser(selected, df))))[table[i].key]
    ensures df == [] ==> table == []
  {
    var rows := FilterByUser(selected, df);
    var emojis: seq<char> := [];
    for i := 0 to |rows|
      invariant emojis == EmojiList(rows[..i], emojiSet)
    {
      assert rows[..i + 1][..i] == rows[..i];
      emojis := emojis + EmojisIn(rows[i].message, emojiSet);
    }
    assert rows[..|rows|] == rows;
    table := MostCommon(emojis, |Tally(emojis)|);
    EmojiListIsFilter(rows, emojiSet);
  }

  // ---------------------------------------------------------------------------
  // monthly_timeline and daily_timeline

  /** The group key `(year, month_num, month)` of `monthly_timeline`. */
  function MonthKey(r: Record): Key
  {
    [Int(r.year), Int(r.monthNum), Str(r.month)]
  }

  /** The group key `only_date` of `daily_timeline`. */
  function DateKey(r: Record): Key
  {
    [Int(r.onlyDate)]
  }

  function MonthKeys(rows: seq<Record>): (c: seq<Key>)
    ensures |c| == |rows| && forall i :: 0 <= i < |rows| ==> c[i] == MonthKey(rows[i])
  {
    seq(|rows|, i requires 0 <= i < |rows| => MonthKey(rows[i]))
  }

  function DateKeys(rows: seq<Record>): (c: seq<Key>)
    ensures |c| == |rows| && forall i :: 0 <= i < |rows| ==> c[i] == DateKey(rows[i])
  {
    seq(|rows|, i requires 0 <= i < |rows| => DateKey(rows[i]))
  }

  lemma MonthKeysCover(rows: seq<Record>)
    ensures forall x :: x in rows ==> MonthKey(x) in MonthKeys(rows)
  {
    forall x | x in rows ensures MonthKey(x) in MonthKeys(rows) {
      var i :| 0 <= i < |rows| && rows[i] == x;
      assert MonthKeys(rows)[i] == MonthKey(x);
    }
  }

  lemma DateKeysCover(rows: seq<Record>)
    ensures forall x :: x in rows ==> DateKey(x) in DateKeys(rows)
  {
    forall x | x in rows ensures DateKey(x) in DateKeys(rows) {
      var i :| 0 <= i < |rows| && rows[i] == x;
      assert DateKeys(rows)[i] == DateKey(x);
    }
  }

  /**
    `monthly_timeline`: the message count of every month that has messages,
    in ascending `(year, month_num, month)` order.
  */
  function MonthlyTimeline(selected: string, df: seq<Record>): (t: seq<Entry<Key>>)
    ensures Ascending(t)
    ensures forall i :: 0 <= i < |t| ==>
      t[i].key in MonthKeys(FilterByUser(selected, df))
      && t[i].count == multiset(MonthKeys(FilterByUser(selected, df)))[t[i].key]
    ensures forall r :: r in FilterByUser(selected, df) ==> MonthKey(r) in KeysOf(t)
    ensures Total(t) == |FilterByUser(selected, df)|
  {
    var rows := FilterByUser(selected, df);
    MonthKeysCover(rows);
    GroupCount(MonthKeys(rows))
  }

  /** `(year, month_num, month)` keys compare by year first, then by month number. */
  lemma MonthKeyOrder(x: Record, y: Record)
    requires KeyLess(MonthKey(x), MonthKey(y))
    ensures x.year < y.year || (x.year == y.year && x.monthNum <= y.monthNum)
  {
    var a, b := MonthKey(x), MonthKey(y);
    if x.year == y.year {
      assert a[1..] == [Int(x.monthNum), Str(x.month)];
      assert b[1..] == [Int(y.monthNum), Str(y.month)];
      assert KeyLess(a[1..], b[1..]);
    }
  }

  /** Every group key of a timeline is the key of one of the rows it counts. */
  lemma KeyOfSomeRow(keys: seq<Key>, k: Key) returns (n: nat)
    requires k in keys
    ensures n < |keys| && keys[n] == k
  {
    n :| 0 <= n < |keys| && keys[n] == k;
  }

  /** The months of the timeline run forward in time: years, then month numbers, never decrease. */
  lemma MonthlyTimelineChronological(selected: string, df: seq<Record>, i: nat, j: nat)
    requires i < j < |MonthlyTimeline(selected, df)|
    ensures exists x, y ::
              && x in FilterByUser(selected, df) && y in FilterByUser(selected, df)
              && MonthlyTimeline(selected, df)[i].key == MonthKey(x)
              && MonthlyTimeline(selected, df)[j].key == MonthKey(y)
              && (x.year < y.year || (x.year == y.year && x.monthNum <= y.monthNum))
  {
    var t := MonthlyTimeline(selected, df);
    var rows := FilterByUser(selected, df);
    var a := KeyOfSomeRow(MonthKeys(rows), t[i].key);
    var b := KeyOfSomeRow(MonthKeys(rows), t[j].key);
    MonthKeyOrder(rows[a], rows[b]);
    assert rows[a] in rows && rows[b] in rows;
  }

  /** `daily_timeline`: the message count of every date that has messages, in date order. */
  function DailyTimeline(selected: string, df: seq<Record>): (t: seq<Entry<Key>>)
    ensures Ascending(t)
    ensures forall i :: 0 <= i < |t| ==>
      t[i].key in DateKeys(FilterByUser(selected, df))
      && t[i].count == multiset(DateKeys(FilterByUser(selected, df)))[t[i].key]
    ensures forall r :: r in FilterByUser(selected, df) ==> DateKey(r) in KeysOf(t)
    ensures Total(t) == |FilterByUser(selected, df)|
  {
    var rows := FilterByUser(selected, df);
    DateKeysCover(rows);
    GroupCount(DateKeys(rows))
  }

  /** `only_date` keys compare as the dates they hold. */
  lemma DateKeyOrder(x: Record, y: Record)
    requires KeyLess(DateKey(x), DateKey(y))
    ensures x.onlyDate < y.onlyDate
  {
    if x.onlyDate == y.onlyDate {
      assert DateKey(x) == DateKey(y);
      KeyLessIrreflexive(DateKey(x));
    }
  }

  /** The dates of the daily timeline strictly increase. */
  lemma DailyTimelineChronological(selected: string, df: seq<Record>, i: nat, j: nat)
    requires i < j < |DailyTimeline(selected, df)|
    ensures exists x, y ::
              && x in FilterByUser(selected, df) && y in FilterByUser(selected, df)
              && DailyTimeline(selected, df)[i].key == DateKey(x)
              && DailyTimeline(selected, df)[j].key == DateKey(y)
              && x.onlyDate < y.onlyDate
  {
    var t := DailyTimeline(selected, df);
    var rows := FilterByUser(selected, df);
    var a := KeyOfSomeRow(DateKeys(rows), t[i].key);
    var b := KeyOfSomeRow(DateKeys(rows), t[j].key);
    DateKeyOrder(rows[a], rows[b]);
    assert rows[a] in rows && rows[b] in rows;
  }

  // ---------------------------------------------------------------------------
  // week_activity_map and month_activity_map

  /**
    `value_counts()` of a column: every distinct value with its number of
    rows, most frequent first.
  */
  function ValueCounts(column: seq<string>): (r: seq<Entry<string>>)
    ensures DistinctKeys(r)
    ensures forall i :: 0 <= i < |r| ==> r[i].key in column && r[i].count == multiset(column)[r[i].key]
    ensures forall v :: v in column ==> v in KeysOf(r)
    ensures forall i, j :: 0 <= i < j < |r| ==> r[i].count >= r[j].count
    ensures Total(r) == |column|
  {
    MostCommon(column, |Tally(column)|)
  }

  /** `week_activity_map`: messages per day of the week. */
  function WeekActivityMap(selected: string, df: seq<Record>): (r: seq<Entry<string>>)
    ensures forall i :: 0 <= i < |r| ==>
      r[i].count == multiset(DayNames(FilterByUser(selected, df)))[r[i].key] && r[i].count > 0
    ensures DistinctKeys(r)
    ensures forall i, j :: 0 <= i < j < |r| ==> r[i].count >= r[j].count
    ensures forall x :: x in FilterByUser(selected, df) ==> x.dayName in KeysOf(r)
    ensures Total(r) == |FilterByUser(selected, df)|
  {
    var rows := FilterByUser(selected, df);
    DayNamesCover(rows);
    ValueCounts(DayNames(rows))
  }

  /** `month_activity_map`: messages per month name. */
  function MonthActivityMap(selected: string, df: seq<Record>): (r: seq<Entry<string>>)
    ensures forall i :: 0 <= i < |r| ==>
      r[i].count == multiset(Months(FilterByUser(selected, df)))[r[i].key] && r[i].count > 0
    ensures DistinctKeys(r)
    ensures forall i, j :: 0 <= i < j < |r| ==> r[i].count >= r[j].count
    ensures forall x :: x in FilterByUser(selected, df) ==> x.month in KeysOf(r)
    ensures Total(r) == |FilterByUser(selected, df)|
  {
    var rows := FilterByUser(selected, df);
    MonthsCover(rows);
    ValueCounts(Months(rows))
  }

  // ---------------------------------------------------------------------------
  // activity_heatmap

  /** The (day_name, period) label pair of a row. */
  function DayPeriod(r: Record): (Key, Key)
  {
    ([Str(r.dayName)], [Str(r.period)])
  }

  function DayPeriods(rows: seq<Record>): (c: seq<(Key, Key)>)
    ensures |c| == |rows| && forall i :: 0 <= i < |rows| ==> c[i] == DayPeriod(rows[i])
  {
    seq(|rows|, i requires 0 <= i < |rows| => DayPeriod(rows[i]))
  }

  /**
    `activity_heatmap`: messages per (day_name, period) cell, for every day
    name and every period that occur, 0 where a day has no message in a period.
  */
  function ActivityHeatmap(selected: string, df: seq<Record>): (p: Pivot)
    ensures forall i, j :: 0 <= i < j < |p.index| ==> KeyLess(p.index[i], p.index[j])
    ensures forall i, j :: 0 <= i < j < |p.columns| ==> KeyLess(p.columns[i], p.columns[j])
    ensures forall x :: x in FilterByUser(selected, df) ==> [Str(x.dayName)] in p.index && [Str(x.period)] in p.columns
    ensures |p.cells| == |p.index| && forall i :: 0 <= i < |p.index| ==> |p.cells[i]| == |p.columns|
    ensures forall i, j :: 0 <= i < |p.index| && 0 <= j < |p.columns| ==>
      p.cells[i][j] == multiset(DayPeriods(FilterByUser(selected, df)))[(p.index[i], p.columns[j])]
    ensures GridTotal(p.cells) == |FilterByUser(selected, df)|
  {
    var rows := FilterByUser(selected, df);
    HeatmapLabels(rows);
    CrossTab(DayPeriods(rows))
  }

  lemma HeatmapLabels(rows: seq<Record>)
    ensures forall x :: x in rows ==>
      [Str(x.dayName)] in Firsts(DayPeriods(rows)) && [Str(x.period)] in Seconds(DayPeriods(rows))
  {
    forall x | x in rows
      ensures [Str(x.dayName)] in Firsts(DayPeriods(rows)) && [Str(x.period)] in Seconds(DayPeriods(rows))
    {
      var i :| 0 <= i < |rows| && rows[i] == x;
      assert Firsts(DayPeriods(rows))[i] == [Str(x.dayName)];
      assert Seconds(DayPeriods(rows))[i] == [Str(x.period)];
    }
  }

  /** Every label of the grid comes from some row. */
  lemma HeatmapLabelsOccur(rows: seq<Record>)
    ensures var p := CrossTab(DayPeriods(rows));
      (forall a :: a in p.index ==> exists x :: x in rows && a == [Str(x.dayName)])
      && (forall b :: b in p.columns ==> exists x :: x in rows && b == [Str(x.period)])
  {
    var p := CrossTab(DayPeriods(rows));
    forall a | a in p.index ensures exists x :: x in rows && a == [Str(x.dayName)] {
      assert a in Firsts(DayPeriods(rows));
      var i :| 0 <= i < |rows| && Firsts(DayPeriods(rows))[i] == a;
      assert rows[i] in rows;
    }
    forall b | b in p.columns ensures exists x :: x in rows && b == [Str(x.period)] {
      assert b in Seconds(DayPeriods(rows));
      var i :| 0 <= i < |rows| && Seconds(DayPeriods(rows))[i] == b;
      assert rows[i] in rows;
    }
  }

  /** Conversely, every day label and every period label of the heatmap is that of some message of the sender. */
  lemma HeatmapLabelsFromMessages(selected: string, df: seq<Record>)
    ensures var p := ActivityHeatmap(selected, df);
      (forall a :: a in p.index ==> exists x :: x in FilterByUser(selected, df) && a == [Str(x.dayName)])
      && (forall b :: b in p.columns ==> exists x :: x in FilterByUser(selected, df) && b == [Str(x.period)])
  {
    HeatmapLabelsOccur(FilterByUser(selected, df));
  }

  /** A (day, period) pair that no message falls in shows 0, not a missing value. */
  lemma HeatmapAbsentPairIsZero(selected: string, df: seq<Record>, i: nat, j: nat)
    requires var p := ActivityHeatmap(selected, df); i < |p.index| && j < |p.columns|
    requires var p := ActivityHeatmap(selected, df);
      forall x :: x in FilterByUser(selected, df) ==> DayPeriod(x) != (p.index[i], p.columns[j])
    ensures ActivityHeatmap(selected, df).cells[i][j] == 0
  {
  }
}
