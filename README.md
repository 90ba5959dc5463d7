# WhatsApp chat analyzer: the statistics of `helper.py`

This Dafny project models the statistics module `venv/helper.py` of the
WhatsApp chat analyzer. A chat export has already been parsed into a table of
message records. Each record has a sender (`user`), the message text and the
timestamp fields `year`, `month_num`, `month`, `day_name`, `only_date` and
`period`. Every view the dashboard shows is computed from that table. All of
them but the busiest-senders view can be restricted to one sender; the
pseudo-user `Overall` selects everyone. The views are:

- the message, word and media counts;
- the busiest senders;
- the most common words, after stop words are removed;
- the text of the word cloud;
- the emoji frequencies;
- the monthly and daily timelines;
- the weekday and month activity maps;
- the weekday × period heat map.

The model takes the table as a `seq<Record>`. Each view is a function over it,
except the two pieces `helper.py` computes step by step:

- `emoji_helper`'s loop, which extends a list message by message, is the
  method `EmojiHelper` with a loop invariant;
- `create_wordcloud` overwrites the message column in place. That is the
  method `RemoveStopWordsColumn` on an `array<string>`, called from
  `WordcloudText`.

The library behaviour the statistics rely on is modelled from its documented
semantics:

- `Text` (text.dfy) covers four Python `str` operations:
  - `str.split()` with Python's whitespace set;
  - `str.lower()`;
  - `w in text` between two strings, which is a substring test;
  - `" ".join` / `Series.str.cat(sep=" ")`.

  It also defines Python's string order.
- `Counting` (counting.dfy) is `collections.Counter` and `most_common(n)`:
  - keys are kept in the order they are first seen;
  - `most_common(n)` is a stable sort by count, highest first, that keeps the first `n` entries.

  `Series.value_counts()` uses the same module.
- `Grouping` (grouping.dfy) covers `groupby(..., sort=True).count()` over key
  tuples in ascending order, and `pivot_table(aggfunc='count').fillna(0)` as a
  cross-tabulation.
- `Sequences` (sequences.dfy) holds the boolean-mask filter and list flattening.

## Model

| member | source | states |
|---|---|---|
| ChatStats.FilterByUser | venv/helper.py:10-13 | `Overall` returns the table unchanged. Any other sender gives a subsequence of the table (order kept) holding only that sender's rows, and each of those rows as many times as in the table. |
| ChatStats.FilterByUserSize | venv/helper.py:10-13 | A sender's filtered table has as many rows as the sender occurs in the `user` column; for `Overall` it has every row. |
| ChatStats.WordListsFlatMap | venv/helper.py:30-67 | The token list of `fetch_stats`, the lower-cased token list and the kept-word list are each the concatenation, row by row, of one list per row. |
| ChatStats.FetchStats | venv/helper.py:23-33 | Three counts over the filtered table. The message count is its row count: the whole table for `Overall`, the sender's number of occurrences otherwise. The word count is the number of `split()` tokens over its messages. The media count is the number of messages exactly equal to `<Media omitted>\n`, so it never exceeds the message count. |
| ChatStats.MediaCount | venv/helper.py:33 | The masked media rows number exactly the occurrences of the placeholder in the message column. |
| ChatStats.WordsAppend | venv/helper.py:30 | The word list of two tables put together is the word list of the first followed by that of the second. |
| ChatStats.MediaPlaceholderWords | venv/helper.py:30-33 | The media placeholder itself splits into the two words `<Media` and `omitted>`, so media messages add to the word count. |
| ChatStats.FetchStatsExample | venv/helper.py:23-38 | A chat of `hi` and one media message gives 2 messages, 3 words and 1 media message. |
| ChatStats.MessagesOfAllCounts | venv/helper.py:23-27 | Summing the message counts of a list of senders (none of them `Overall`) gives the sum of their occurrences in the `user` column. |
| ChatStats.MessagesSplitBySender | venv/helper.py:23-27 | Over distinct senders that cover every row, the per-sender message counts add up to the `Overall` message count. |
| ChatStats.MostBusyUsers | venv/helper.py:40-41 | At most 5 entries, each a sender of the table with its exact message count. Keys are distinct and counts do not increase. A sender left out means the 5 listed each have at least as many messages. The counts sum to at most the row count. |
| ChatStats.MostBusyUsersMatchStats | venv/helper.py:41 | Each busiest-sender count equals that sender's `fetch_stats` message count. |
| ChatStats.KeptTokensSound | venv/helper.py:67 | A kept word is a non-empty, whitespace-free, lower-case token of the lower-cased message. It does not occur anywhere in the stop-word text. |
| ChatStats.KeptWordsSource | venv/helper.py:65-67 | Every word of the kept-word list is a kept token of one of the counted rows. |
| ChatStats.KeptWordsCount | venv/helper.py:65-67 | A word that occurs in the stop-word text is never kept. Every other word is kept exactly as often as it occurs among the lower-cased tokens of the counted messages. |
| ChatStats.MostCommonWords | venv/helper.py:61-69 | At most 20 distinct kept words, each with its exact number of occurrences among the kept words. Counts do not increase, and equal counts keep the order in which the words first occur. A kept word left out means 20 words are listed and each of them outranks it: a higher count, or the same count and an earlier first occurrence. |
| ChatStats.MostCommonWordsCountTokens | venv/helper.py:65-68 | Each reported count is also the number of times the word occurs among all lower-cased tokens of the counted messages. |
| ChatStats.MostCommonWordsSound | venv/helper.py:64-67 | Every reported word is a lower-case token of the lower-cased message of a selected row. That row's sender is not `group_notification` and its message is not the media placeholder. The word is not a substring of the stop-word text. |
| ChatStats.NoStopWordsKeepsAll | venv/helper.py:67 | With the empty stop-word text, every lower-cased token of every counted message is kept. |
| ChatStats.MissingStopWordsKeepsAll | venv/helper.py:15-21 | `read_stop_words` gives the empty text for a missing file, and then no word is dropped: the kept words are all lower-cased tokens of the counted messages. |
| ChatStats.RemoveStopWordsSplit | venv/helper.py:52-53 | Splitting the cleaned message gives back exactly its kept tokens: joining and re-splitting loses nothing. |
| ChatStats.RemoveStopWordsColumn | venv/helper.py:56 | Every cell of the column is replaced, in place, by its cleaned message. |
| ChatStats.CleanedColumnWords | venv/helper.py:56-57 | The tokens of the cleaned column are the kept words of its rows, in order. |
| ChatStats.WordcloudText | venv/helper.py:46-57 | The text is the counted messages, each cleaned by `remove_stop_words`, joined by single spaces. The whitespace tokens of the text handed to `wc.generate` are exactly the words `most_common_words` counts, in the same order. None of them is a substring of the stop-word text. |
| ChatStats.EmojiList | venv/helper.py:79-81 | Every collected character belongs to the emoji set. |
| ChatStats.EmojiListIsFilter | venv/helper.py:79-81 | The collected list is the emoji characters of all the messages put together, in the order they are written. |
| ChatStats.EmojiHelper | venv/helper.py:74-84 | The loop's list is the emoji list of the filtered rows, and the table is its full `most_common`. Entries are distinct emoji with non-increasing counts. Each count is that emoji's number of occurrences in the filtered messages. Every emoji used appears, the counts sum to the number of emoji characters, and an empty table of messages gives an empty result. |
| ChatStats.MonthlyTimeline | venv/helper.py:98-101 | One entry per `(year, month_num, month)` that occurs among the filtered rows, in strictly ascending key order, each with its number of rows. Every row's month is present, and the counts sum to the filtered row count. |
| ChatStats.MonthKeyOrder | venv/helper.py:101 | Group keys compare by year first, then by month number. |
| ChatStats.MonthlyTimelineChronological | venv/helper.py:101 | Later timeline entries are never earlier months: the year grows, or stays and the month number does not decrease. |
| ChatStats.DailyTimeline | venv/helper.py:107-110 | One entry per date that occurs among the filtered rows, in strictly ascending order, each with its number of rows. Every row's date is present, and the counts sum to the filtered row count. |
| ChatStats.DateKeyOrder | venv/helper.py:110 | Date keys compare as the dates they hold. |
| ChatStats.DailyTimelineChronological | venv/helper.py:110 | The dates of the daily timeline strictly increase. |
| ChatStats.ValueCounts | venv/helper.py:117 | Every distinct value of the column exactly once with its number of rows, counts not increasing, summing to the column length. |
| ChatStats.WeekActivityMap | venv/helper.py:114-117 | Each weekday's count is its number of filtered rows, and each count is positive. No name is listed twice, and counts do not increase. Every weekday that occurs is present, and the counts sum to the filtered row count. |
| ChatStats.MonthActivityMap | venv/helper.py:119-122 | Each month's count is its number of filtered rows, and each count is positive. No name is listed twice, and counts do not increase. Every month that occurs is present, and the counts sum to the filtered row count. |
| ChatStats.ActivityHeatmap | venv/helper.py:124-127 | Rows are the sorted distinct day names and columns the sorted distinct periods, both including every row's labels. Each cell is the number of filtered rows with that (day_name, period) pair. All cells sum to the filtered row count. |
| ChatStats.HeatmapLabelsFromMessages | venv/helper.py:124-127 | Conversely, every day label and every period label of the heatmap is that of some filtered row. |
| ChatStats.HeatmapAbsentPairIsZero | venv/helper.py:127 | A day and period pair that no row has shows 0 (`fillna(0)`). |
| Counting.Tally | venv/helper.py:69 | `Counter(xs)`: each distinct value once, with its exact count, in order of first occurrence, counts summing to the list length. |
| Counting.BumpCounter | venv/helper.py:69 | Counting one more element keeps a table a Counter of the longer list. |
| Counting.SortByCountRanked | venv/helper.py:69 | The insertion sort puts a Counter's entries in `most_common` order: higher counts first, ties in first-seen order. |
| Counting.MostCommon | venv/helper.py:69 | `most_common(n)` returns `min(n, distinct)` entries with distinct keys and exact counts. Counts do not increase, and ties come in first-seen order. An omitted value means `n` entries were kept, each ranking above it. With `n` at least the number of distinct values, every value is present and the counts sum to the list length. |
| Counting.SumCountsPartition | venv/helper.py:41 | The counts of distinct values that cover a list sum to its length. |
| Grouping.GroupCount | venv/helper.py:101 | `groupby(sort=True).count()`: strictly ascending keys, each a key of the column with its exact count. Every key is present, and the counts sum to the column length. |
| Grouping.AddKeyAscending | venv/helper.py:101 | Adding one row to a sorted group table keeps it sorted and adds exactly one to its key's count. |
| Grouping.KeyLessTransitive | venv/helper.py:101 | The lexicographic tuple order is transitive. |
| Grouping.KeyLessTotal | venv/helper.py:101 | Any two distinct keys are ordered one way or the other. |
| Grouping.CrossTab | venv/helper.py:127 | `pivot_table(..., aggfunc='count').fillna(0)`: sorted distinct row and column labels, exactly those that occur. Each cell is its pair's count, 0 for pairs that never occur, and all cells sum to the number of rows. |
| Grouping.CrossTabTotal | venv/helper.py:127 | The cells of a cross-tabulation sum to its number of rows. |
| Text.SplitTokens | venv/helper.py:30 | Every piece of `str.split()` is non-empty and free of whitespace. |
| Text.SplitConcat | venv/helper.py:30 | Glued back together, the pieces of `str.split()` are exactly the non-whitespace characters of the text. |
| Text.SplitToken | venv/helper.py:53 | Splitting a single token gives that token alone. |
| Text.SplitJoinSpace | venv/helper.py:53-57 | Splitting text joined with single spaces splits each part separately. |
| Text.SplitJoinTokens | venv/helper.py:53 | Joining tokens with spaces and splitting again returns the tokens. |
| Text.SplitLowerIsLowerCase | venv/helper.py:67 | Every piece of `s.lower().split()` is lower case. |
| Text.LowerIsLowerCase | venv/helper.py:67 | `lower()` returns lower-case text, so applying it twice changes nothing. |
| Text.IsSubstring | venv/helper.py:67 | `w in text` holds exactly when `w` occurs at some position of `text`. |
| Text.NothingInEmptyText | venv/helper.py:67 | No non-empty word occurs in the empty text. |
| Text.StrLessTotal | venv/helper.py:101 | Python's string order ranks any two distinct strings. |
| Sequences.Filter | venv/helper.py:12 | The boolean-mask filter keeps an order-preserving subsequence of exactly the matching elements, each as many times as before. |
| Sequences.FilterAppend | venv/helper.py:81 | Filtering a concatenation filters each part. |

## Left out

- The link count of `fetch_stats` (`venv/helper.py:36`) is computed by the `urlextract` library, whose code is not part of this model. `Stats` has no link field.
- `read_stop_words` reads a file. The model takes the file as a parameter (its text, or `None` when missing) and does not model the warning it prints.
- `WordCloud` generation and all `matplotlib` plotting (`venv/helper.py:55-57` and `venv/helper.py:87-93`) are rendering. `WordcloudText` stops at the text handed to `wc.generate`; the word cloud's own tokenisation and drawing are not modelled.
- The percentage column of `most_busy_users` (`venv/helper.py:42-43`) is floating-point division and is not modelled.
- `emoji.EMOJI_DATA` is an abstract parameter `emojiSet: set<char>`. The test is per code point, just as the source iterates over a Python string. Multi-code-point emoji sequences therefore never match, as in the source.
- The `time` label column of `monthly_timeline` (`venv/helper.py:103`) is string formatting and is not modelled.
- pandas dtypes and missing values are not modelled: every record field is present.
- Text.LowerChar: maps only ASCII and Latin-1 capital letters to lower case. Python's full Unicode case table is not modelled. Text outside those ranges keeps its case in the model.
- ChatStats.MostBusyUsers: among senders with equal counts, the five kept and their order follow first-seen order, as for `ValueCounts` below.
- ChatStats.ValueCounts: pandas does not specify the order of tied counts in `value_counts()`. The model fixes it to first-seen order, as `Counter.most_common` does. The counts and the non-increasing order are what these contracts state.
- `only_date` is an integer day number, so date order is integer order; the calendar itself is not modelled.
- The heat map cells are natural numbers. pandas returns them as floats after `fillna(0)`.
- The DataFrame wrappers around results are not modelled: `pd.DataFrame(...)`, `reset_index()` and column renaming. Each result is modelled as its list of entries.
