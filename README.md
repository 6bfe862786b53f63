# Timetable learning assistant: study-schedule suggester and fence cleaning

This project models, in Dafny, the two pieces of deterministic logic in the
Python backend of the timetable learning assistant (`backend/adk_agent.py`):

* **The study-schedule suggester** (`suggest_study_schedule_tool`). It takes the
  weekly hours available, a list of preferred day names and a time-of-day
  preference. It returns `max(0, min(hours // 2, number of days))` two-hour sessions
  (`range` of a negative bound is empty).
  Session *i* falls on the *i*-th preferred day, with that day's ordinal
  (Sunday = 0, and Monday = 1 for an unknown name). It starts at entry `i mod 3`
  of the morning, afternoon or evening start-time table, using the morning table
  for an unknown preference. Its end time is worked out by the source's own
  12-hour arithmetic. The result also carries a summary and a message. The
  model is the method `SuggestStudySchedule`, a loop that appends one session
  per round. It is proved equal to the function `ScheduleOf`, and the
  properties are lemmas about `ScheduleOf`. Like the source, the method reads
  the hour and the AM/PM marker back from the start-time text. The
  `ParseRenderClock` round trip shows that this recovers the table's clock.
  Because Dafny checks that `i % |preferredDays|` is well defined, the model
  also shows that no division by zero happens when the day list is empty.
* **Code-fence cleaning** of language-model replies (`CleanFence`). The reply
  is stripped. If it opens with "```json" or "```", every marker is removed
  and the text is stripped again. The same expression appears twice in the
  source: in `generate_learning_plan_tool` (lines 73-79) and in
  `get_learning_resources_tool` (lines 253-258). It is modelled once. The main
  result: once a fence branch fires, no "```" is left
  (`RemoveFenceLeavesNoFence`). Its proof rests on `RemoveFenceLeadingTicks`:
  removing "```" from left to right cuts the leading run of backticks down to
  its length modulo 3, so no new fence can form where two pieces meet.

The Python builtins these rely on are modelled over `seq<char>` in module
`PyStr`: whitespace as `str.isspace` defines it, `strip`, `startswith`,
`in`, `replace(old, "")`, `split(sep)[0]` and `split(sep)[1]`. Integer rendering (`f"{n}"`)
and `int()` are in module `Decimal`.

The end-time rule is modelled **as written**. The source adds 2 to the hour
and subtracts 12 when the sum exceeds 12. When it wraps, the period is always
"PM", because both arms of the conditional give "PM". When it does not wrap,
the start's period is kept. So "10:00 AM" ends at "12:00 AM".
`EndClockWallTime` states exactly when this agrees with the real time two
hours later: it disagrees for 10 o'clock, 11 PM and 12 AM. `SkewedSlots`
shows that among the table's start times only 10:00 AM is affected.
`WeekdayMorningsScenario` is the morning example from
`backend/test_adk_agent.py`.

Files: `wrappers.dfy` (Option), `decimal.dfy`, `pystr.dfy`, `fence.dfy`,
`schedule.dfy`.

## Model

| member | source | states |
|---|---|---|
| `Decimal.ParseRender` | backend/adk_agent.py:134 | `int()` applied to the `f"{n}"` text of any natural number gives back that number |
| `Decimal.RenderParse` | backend/adk_agent.py:134 | `int()`, restricted to ASCII digits, of a non-empty digit string without a leading zero succeeds, and rendering the result gives the string back; with `ParseRender`, `int()` and `f"{n}"` are inverse on such strings |
| `Decimal.RenderShape` | backend/adk_agent.py:144 | the rendering of a number is a non-empty string of ASCII digits with no leading zero, and it holds no ':' or ' ' (so the later `split` calls cannot cut into it) |
| `PyStr.Strip` | backend/adk_agent.py:73 | the result has no whitespace at either end, and it is the input with only whitespace cut from the front and the back |
| `PyStr.RemoveAll` | backend/adk_agent.py:77 | `replace(pat, "")` never lengthens the text, and it leaves the text unchanged exactly when `pat` does not occur in it |
| `PyStr.SplitHead` | backend/adk_agent.py:134-135 | `split(sep)[0]` is a prefix free of `sep`, and it is followed by `sep` whenever it is shorter than the text |
| `PyStr.SplitSecond` | backend/adk_agent.py:135 | `split(sep)[1]` exists exactly when `sep` occurs in the text; it is then the text between the first `sep` and the next `sep` (or the end), and holds no `sep` |
| `PyStr.StripContains` | backend/adk_agent.py:77-79 | a substring of the stripped text is a substring of the original (stripping cannot create a marker) |
| `FenceCleaning.RemoveFenceLeadingTicks` | backend/adk_agent.py:77-79 | after all "```" are removed, the leading run of backticks has its original length modulo 3 |
| `FenceCleaning.RemoveFenceLeavesNoFence` | backend/adk_agent.py:77-79 | after `replace("```", "")`, the text contains no "```" at all |
| `FenceCleaning.CleanFence` | backend/adk_agent.py:73-79 | the output has no whitespace at either end; if the stripped reply starts with "```" (which includes "```json"), the output contains no "```"; otherwise the output is exactly the stripped reply |
| `FenceCleaning.Unfenced` | backend/adk_agent.py:77-79 | the text after `replace("```", "").strip()` has no whitespace at either end and contains no "```" |
| `FenceCleaning.CleanFenceIdempotent` | backend/adk_agent.py:73-79 | cleaning an already cleaned reply changes nothing; this is a property of the cleaning expression, which lines 253-258 repeat verbatim |
| `FenceCleaning.UnwrapJsonFence` | backend/adk_agent.py:76-77 | a reply "```json" + body + "```" whose body has no backtick cleans to the stripped body |
| `FenceCleaning.UnwrapFence` | backend/adk_agent.py:78-79 | a reply "```" + body + "```" whose body has no backtick and does not start with "json" cleans to the stripped body |
| `StudySchedule.DayOrdinal` | backend/adk_agent.py:111-114 | the ordinal is in 0..6; for a day name it is that name's position in Sunday..Saturday; for any other string it is 1 |
| `StudySchedule.RenderClockFields` | backend/adk_agent.py:144 | in the text `f"{hour}:00 {period}"`, the field before the first ':' is the hour's digits and the second space-separated field is the period |
| `StudySchedule.ParseRenderClock` | backend/adk_agent.py:134-135 | `ParseClock`, which reads the hour as `int(split(':')[0])` and the period as `split(' ')[1]` (failing on a missing field, a non-numeric hour or a period other than AM/PM), gives back the original hour and period from every rendered time |
| `StudySchedule.EndClock` | backend/adk_agent.py:136-144 | the end of a valid start is a valid hour (1..12) that equals the start hour + 2 modulo 12; when hour + 2 exceeds 12 the end period is PM whatever the start period; otherwise it is the start period |
| `StudySchedule.EndClockWallTime` | backend/adk_agent.py:136-144 | the computed end equals start + 2 hours on the 24-hour day exactly when the start is not 10 AM, 10 PM, 11 PM or 12 AM |
| `StudySchedule.StartSlots` | backend/adk_agent.py:116-120 | every preference yields three valid start hours, consecutive and in one period |
| `StudySchedule.StartSlotsFallback` | backend/adk_agent.py:126 | a preference other than morning, afternoon or evening gets the morning slots |
| `StudySchedule.StartTimesParse` | backend/adk_agent.py:116-135 | each of the three start texts chosen for a preference (the morning row for an unknown one) reads back, through `split(':')[0]` and `split(' ')[1]`, as the slot it was written from |
| `StudySchedule.StartTimeTexts` | backend/adk_agent.py:116-120 | the rendered slots are the source's strings "9:00 AM" … "8:00 PM", row by row |
| `StudySchedule.SkewedSlots` | backend/adk_agent.py:138-142 | among the table's start times, the end time is wrong exactly for "10:00 AM" |
| `StudySchedule.SessionCount` | backend/adk_agent.py:124-128 | the number of sessions is at most the number of days; it fits in the hours at two hours each; and it is maximal: either every day is used or one more session would not fit |
| `StudySchedule.Sessions` | backend/adk_agent.py:128-152 | the loop's list after n rounds has length n, and entry k is the session built in round k |
| `StudySchedule.RoundSession` | backend/adk_agent.py:129-144 | one loop round as the source computes it (`preferred_days[i % len]`, `start_times[i % len]`, the start text parsed back) always parses, and it builds the session for day i and slot i mod 3 |
| `StudySchedule.SuggestStudySchedule` | backend/adk_agent.py:95-160 | the loop, which takes `% len` of the day list and parses the start text back, returns exactly `ScheduleOf` of its arguments |
| `StudySchedule.ScheduleOf` | backend/adk_agent.py:154-160 | the result is a success, echoes the hours, and its sessionsPerWeek equals the schedule's length and the session count |
| `StudySchedule.MessageCounts` | backend/adk_agent.py:159 | the message starts with "Created ", the word after it reads back as the session count, and the word after " study sessions totaling " reads back as twice that count |
| `StudySchedule.ScheduleSummary` | backend/adk_agent.py:154-160 | success is always true; totalHours echoes the input; sessionsPerWeek equals the schedule's length and the session count; the message quotes that count and twice it in hours |
| `StudySchedule.EmptySchedule` | backend/adk_agent.py:124-128 | the schedule is empty exactly when there is no preferred day or fewer than 2 hours |
| `StudySchedule.ScheduleSession` | backend/adk_agent.py:129-151 | session k falls on preferred day k, with its ordinal as day; it starts at start time k mod 3 of the preference, ends at that slot's computed end, and lasts 2 hours |
| `StudySchedule.WeekdayMorningsScenario` | backend/test_adk_agent.py:67-71 | 10 hours on Monday, Wednesday and Friday mornings give Mon 9:00 AM–11:00 AM, Wed 10:00 AM–12:00 AM and Fri 11:00 AM–1:00 PM, with the message "Created 3 study sessions totaling 6 hours" |

## Left out

- The language-model calls in `generate_learning_plan_tool`, `get_learning_resources_tool` and `chat_with_agent` are network calls into an external SDK: `genai.configure`, `generate_content` and `timetable_agent.run`. Only the text cleaning between the reply and `json.loads` is modelled.
- `json.loads` and the success/error dictionaries built around it are a foreign parser and exception handling. They are not modelled.
- `analyze_learning_progress_tool` is built on floating-point division, a 0.9 factor and `round(…, 2)`. A model over exact numbers would not match it.
- The `Tool`, `Parameter` and `Agent` declarations and the agent modules under `backend/agents` are configuration objects for an external SDK. The prompt modules are string constants.
- `backend/agents/learning_plan_agent/sub_agents/task_content/tools.py` (directory and file writes, artifact saving) and `temp.py` (environment and filesystem inspection) are I/O.
- Decimal.Parse: accepts only non-empty runs of ASCII digits. Python's `int()` also takes a sign, surrounding whitespace, underscores between digits and other Unicode decimal digits. The only texts parsed here are the hour fields of the fixed start-time table, which are plain ASCII digits.
- StudySchedule.ParseClock: it accepts only ASCII digits as the hour and only "AM"/"PM" as the period. Python's `int()` also takes signs, surrounding whitespace and underscores. For any other period text, the source would carry it into the end time when the hour does not wrap; when it wraps (line 140) the end is "PM" regardless. Only the fixed table's strings are ever parsed, and `ParseRenderClock` covers all of those.
- PyStr.RemoveAll: requires a non-empty pattern, because the left-to-right removal would not advance on an empty one (Python returns the text unchanged for `replace("", "")`). The source only removes the literal markers "```json" and "```".
- StudySchedule.SuggestStudySchedule: the default `time_preference="morning"` (line 98) is not modelled; the model always takes the preference as an explicit argument. Passing "morning" gives the default's behaviour.
- The frontend time grid (zoom gesture, slot geometry, event placement) is not among the modelled files and is not part of this model.
