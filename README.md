# psql_backup: listing parser, tiered retention step and restore lookup

`psql_backup` is a small Node.js script that runs once a day. It dumps a
PostgreSQL database and copies the dump to a remote store, where it lands in
`~/.backups/daily/<Date.now()>`. It then runs `cleanup`, which rotates backups
through three tier directories, `daily`, `weekly` and `monthly`. It can also
restore a backup by its timestamp. Almost all of the script is shell commands
and e-mail. This project models the three pieces of it that make decisions:

- **Listing parser** (`listing.dfy`, module `Listing`). This is the `format`
  helper of `backupTimestamps`. It turns the text `ls` prints for one tier
  into integer timestamps. The model spells out JavaScript's `trim`,
  `split(/\s/)` and `parseInt`, using the exact ECMAScript white-space set.
  `Format` is the map-then-filter chain of the source.
- **Tiered retention step** (`retention.dfy`, module `Retention`). This is the
  decision logic of `cleanup`. The method `Cleanup` runs the source's three
  checks in order, on working copies of the weekly and monthly lists that it
  pushes onto. It returns the `mv`/`rm` commands as `Move`/`Remove` actions
  instead of running them. `Plan` is the same computation as a function, so
  that lemmas can talk about it. `Apply` runs actions against a store of
  three tier multisets.
- **Restore lookup** (`restore.dfy`, module `Restore`). This is the branch of
  `restore` that reads the output of the remote `find`. A blank result returns
  the message `Backup with name <ts> doesn't exist` and fetches nothing.
  Otherwise the trimmed text is the path to fetch.

`wrappers.dfy` holds the `Option` type shared by the modules.

**Which backup is promoted.** The code picks `Math.max` of each working list,
which is the **newest** backup (index.js:128, 136, 144). A roll-up retention
scheme would normally promote the oldest backup; this code promotes the
newest, and the model does the same. It proves what that choice leads to. With 8 daily backups `1..8`, the backup promoted is
`8` (`NewestPromotedExample`). When the newest daily backup is newer than every
weekly and monthly backup and all three tiers are full, that one backup is
moved to weekly, then to monthly, and then deleted. The weekly and monthly
tiers end unchanged (`NewestRipples`, `NewestDeleted`). So a routine daily run
can delete the backup that was just made.

## Model

| member | source | states |
|---|---|---|
| `Listing.Trim` | index.js:94 | `String.prototype.trim`; specified by `TrimSpec`, `TrimStartSpec`, `TrimEndSpec`, `TrimKeeps` and `TrimNoSpace` below |
| `Listing.Split` | index.js:95 | `split(/\s/)`, one token per run between white-space characters, empty tokens included; every result has at least one token, and it is specified by `SplitNoSpace` and `SplitRejoin` below |
| `Listing.ParseInt` | index.js:96 | `parseInt` without a radix; specified by `ParseIntNaN`, `ParseIntDecimal`, `ParseIntNegative`, `ParseDigits` and `ParseNegDigits` below |
| `Listing.Format` | index.js:92-98 | `format`: trim, split, parse each trimmed token, drop `NaN`; specified by `FormatLength`, `FormatBlank`, `FormatLsOutput` and `FormatSkipsJunk` below |
| `Listing.TrimStartSpec` | index.js:94 | what trimming the start keeps is a suffix that is empty or starts with a non-space, and everything it drops is white space |
| `Listing.TrimEndSpec` | index.js:94 | what trimming the end keeps is a prefix that is empty or ends with a non-space, and everything it drops is white space |
| `Listing.TrimSpec` | index.js:94 | `trim()` gives a slice of the text, with only white space around it; it is empty exactly when the text is all white space, and otherwise starts and ends with a non-space |
| `Listing.TrimKeeps` | index.js:94 | text that starts and ends with a non-space is unchanged by `trim()` |
| `Listing.TrimNoSpace` | index.js:96 | the inner `s.trim()` leaves a token (which has no white space) unchanged |
| `Listing.SplitNoSpace` | index.js:95 | no token of `split(/\s/)` contains a white-space character |
| `Listing.SplitRejoin` | index.js:95 | `split(/\s/)` gives one more token than there are white-space characters, and putting those characters back between the tokens rebuilds the text |
| `Listing.SplitToken` | index.js:95 | a text with no white space splits into itself alone |
| `Listing.SplitTokenThen` | index.js:95 | a token followed by one white-space character is split off whole, and splitting continues on the rest |
| `Listing.DecimalRoundTrip` | index.js:87 | the decimal name `Date.now()` gives a backup denotes that timestamp again |
| `Listing.ParseIntNaN` | index.js:96-97 | `parseInt` gives `NaN` exactly when, after leading white space and one optional sign, the text does not go on with a digit |
| `Listing.ParseIntDecimal` | index.js:96 | `parseInt` of a decimal name followed by any text that does not start with a digit (the `.sql` of a dump, say) gives that number |
| `Listing.ParseIntNegative` | index.js:96 | the same text after a `-` gives the negated number |
| `Listing.ParseDigits` | index.js:96 | any non-empty run of digits followed by a non-digit parses to the value of the run |
| `Listing.ParseNegDigits` | index.js:96 | after a `-`, such a run parses to the negated value |
| `Listing.DecimalToken` | index.js:96 | a backup's file name, once trimmed and parsed, gives its timestamp |
| `Listing.KeepNumbersAppend` | index.js:97 | the `NaN` filter works piece by piece: it keeps the order and does not de-duplicate |
| `Listing.KeepNumbersLength` | index.js:97 | the filter never makes the list longer, and keeps all of it exactly when no entry is `NaN` |
| `Listing.KeepNumbersMembers` | index.js:96-97 | the numbers kept are exactly the values the tokens parsed to: a number is kept if and only if some token parsed to it |
| `Listing.FormatLength` | index.js:92-98 | `format` gives at most one timestamp per token, and exactly one per token when every token parses |
| `Listing.FormatBlank` | index.js:92-98 | empty or white-space-only text gives no timestamps |
| `Listing.FormatLsOutput` | index.js:92-98 | the `ls` output for files named by any list of timestamps reads back as exactly that list, in order |
| `Listing.FormatSkipsJunk` | index.js:92-98 | a non-numeric entry between two backups is dropped: `<a>\nfoo\n<b>` gives `[a, b]` |
| `Listing.JunkTokens` | index.js:94-95 | `<a>\nfoo\n<b>` trims to itself and splits into its three names |
| `Listing.FooIsNaN` | index.js:96 | a name with no leading digit, such as `foo`, parses to `NaN` |
| `Listing.KeepSomeNoneSome` | index.js:97 | the filter turns number, `NaN`, number into the two numbers |
| `Listing.JunkValues` | index.js:96-97 | the three names `<a>`, `foo`, `<b>` parse and filter to `[a, b]` |
| `Retention.Max` | index.js:128 | `Math.max` of a non-empty list is a member of the list and bounds every member |
| `Retention.Choice` | index.js:127-128 | a boundary check fires exactly when its list is over the cap, and then picks a member of the list that no member exceeds |
| `Retention.Plan` | index.js:124-147 | the actions of one `cleanup` as a function of the three listings; `Cleanup` is proved to issue exactly these, and `PlanEmpty`, `PlanOrder`, `PlanPicksNewest`, `Ripple` and `NewestRipples` describe them |
| `Retention.Cleanup` | index.js:124-147 | the three checks, each run on the list the previous one pushed onto, issue exactly the actions of `Plan`, and never more than three |
| `Retention.PlanEmpty` | index.js:127-143 | no action is issued if and only if daily ≤ 7, weekly ≤ 4 and monthly ≤ 12 (the checks are strict `>`) |
| `Retention.PlanOrder` | index.js:124-147 | at most three actions, each one of daily→weekly, weekly→monthly, remove-from-monthly, in that order, so at most one per boundary |
| `Retention.PlanPicksNewest` | index.js:127-146 | each boundary acts exactly when its working list is over its cap, and then picks the maximum of that list, which is a member of it |
| `Retention.Ripple` | index.js:132-143 | the weekly check sees the weekly list after the push: a daily promotion into a weekly tier of exactly 4 forces a weekly promotion, and a weekly promotion into a monthly tier of exactly 12 forces an eviction |
| `Retention.NewestChosenThrice` | index.js:128-144 | if the newest daily backup is newer than every weekly and monthly one and all three tiers are full, all three checks choose that backup |
| `Retention.NewestOnTop` | index.js:136-144 | a backup pushed onto a full working list and newer than all of it is the one that list's check picks |
| `Retention.NewestRipples` | index.js:128-145 | in that case the newest backup is moved daily→weekly, then weekly→monthly, then removed |
| `Retention.NewestDeleted` | index.js:128-145 | and after the run the newest backup is gone while weekly and monthly hold what they held before |
| `Retention.NewestPromotedExample` | index.js:127-132 | daily `1..8` with empty weekly and monthly tiers promotes 8, the newest, and nothing else |
| `Retention.Step` | index.js:129-145 | the effect of one `mv` or `rm` on the three tiers; specified by `StepEffect` |
| `Retention.Apply` | index.js:129-145 | the commands of a run executed in order against the store; specified by `ApplyUntouched`, `ApplyStage` and `ApplyPlan` |
| `Retention.StepEffect` | index.js:129-145 | an `mv` takes the backup out of its source tier and into its destination tier and leaves the third tier alone; an `rm` takes it out of its tier and leaves the other two alone |
| `Retention.ApplyUntouched` | index.js:129-145 | a backup that no action names keeps its place in every tier |
| `Retention.ApplyStage` | index.js:129-145 | each optional command of a run moves or removes at most the chosen backup between the named tiers |
| `Retention.ApplyPlan` | index.js:124-147 | after one run, daily has lost the promoted backup, weekly has gained it and lost its own promoted one, and monthly has gained that one and lost the evicted one |
| `Retention.ChoicesPresent` | index.js:128-144 | each chosen backup is in the list it is taken from |
| `Retention.ApplyPlanSizes` | index.js:124-147 | the exact tier sizes after one run: daily loses one if it held more than 7, weekly gains that one and loses one if it then held more than 4, monthly likewise with 12 |
| `Retention.CapsRestored` | index.js:124-147 | a store with daily ≤ 8, weekly ≤ 4 and monthly ≤ 12 ends within 7/4/12 |
| `Retention.ApplyPlanWeight` | index.js:124-147 | every action lowers the weight 3·daily + 2·weekly + monthly by one, so repeated runs without new backups bring every tier within its cap |
| `Retention.ApplyPlanKeepsUnique` | index.js:124-147 | a run keeps every backup it held except the evicted one and copies nothing, so a timestamp held once in one tier stays that way |
| `Restore.Restore` | index.js:151-156 | `restore` stops with `Backup with name <ts> doesn't exist` exactly when `find` printed only white space; otherwise it fetches the trimmed output: the slice of it that starts and ends with a non-space and has only white space before and after it |
| `Restore.RestoreFound` | index.js:151-158 | when `find` prints one path and its line feed, exactly that path is fetched |

## Left out

- Shell commands: `execute`, `ssh`, `scp`, `mv`, `rm`, `pg_dump` and `psql` (index.js:69-89, 129-145, 149-163). They are external I/O. `cleanup`'s `mv`/`rm` appear as emitted actions, and their effect appears as `Retention.Apply`.
- The `find ~/.backups -name <ts>` search itself (index.js:152). It is a remote filesystem search. Its printed output is a parameter of `Restore.Restore`.
- E-mail (`sendMail`, the nodemailer transport), the commander CLI, `dotenv` configuration and `tmp` files (index.js:8-67). They are network and process plumbing.
- The async sequencing of `makeBackup`, `listBackups` and `restoreFromBackup` (index.js:165-192). This is orchestration. In the source, `cleanup` runs in `finally`, so it runs even when the backup failed. `restoreFromBackup` logs success even when `restore` returned the not-found message.
- `prettify` and `new Date(ts).toUTCString()` (index.js:110-112). They depend on a date library.
- The unused `SECONDS_IN_*` constants (index.js:27-30).
- A remote command that fails partway through `cleanup`. It rejects the promise, so the later checks never run. `Retention.Apply` assumes that every command succeeds.
- Listings whose names map to the same number, such as `5` and `5.sql`. `format` parses both to 5, and the `mv` the source issues uses the number, not the file name. The model works on the parsed numbers only.
- Retention.Apply: a timestamp that already sits in the destination tier. The real `mv daily/X weekly/X` replaces the existing `weekly/X`, so the tier still holds one copy; `Step` adds a second copy to the tier's multiset instead. `ApplyPlanSizes`, `CapsRestored` and `ApplyPlanWeight` therefore count such a backup twice; they match the store exactly when no timestamp is held in two tiers, which is the case `ApplyPlanKeepsUnique` shows a run preserves.
- Listing.ParseInt: reads decimal digits only. The `0x` prefix that makes JavaScript's `parseInt` read hexadecimal is not modelled. Neither is the precision loss of very long digit runs, which JavaScript turns into IEEE doubles: the model uses unbounded integers.
