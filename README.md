# Trail camera classifier: prediction-result shaping

The service in `src/app.py` classifies a photo from a forest camera (wild
boar, deer, ...) and answers in one of two shapes. This project models, in
Dafny, what happens to the classifier's output `(pred_class, pred_idx,
outputs)` and the fixed label list `learn.data.classes` on the way to those
answers:

- the JSON answer of `/classify-upload` (`predict_image_from_bytes_as_json`):
  `predicted_class` is `str(pred_class)`, and `class_probabilities` is
  `zip(classes, outputs)` sorted by probability, descending, with Python's
  stable `sorted(..., reverse=True)`;
- the HTML card of `/upload` and `/classify-url` (`ui_response`): the labels
  and probabilities go into a `dict`, the predicted label is `pop`ped from it
  (a `KeyError` when it is absent), the remaining items are listed as "other
  possibilities" in dict order, and the headline confidence is
  `outputs[pred_idx]`, read from the raw vector.

Modules:

- `Python` (`python.dfy`): the built-in behaviour the code relies on: `zip`,
  an insertion-ordered `dict` (built by `dict(pairs)`, shrunk by `pop`, read
  through its items; `Get` is the key lookup in which its contents are
  stated), and Python indexing with negative indices and `IndexError`.
- `StableSort` (`stable_sort.dfy`): the specification of a stable
  descending sort by probability (`IsStableSortDesc`: sorted, a permutation,
  and every group of equal probabilities kept in input order), an insertion
  sort `SortDesc` proved to meet it, and a proof that it is the only
  sequence that meets it.
- `App` (`app.dfy`): the two answers, `PredictAsJson` and `UiResponse`
  (with `Others` for the "other possibilities"), their properties, and the
  boar/deer/other example worked through both answers.

Probabilities are `real`: the code only compares them and passes them on.
Labels are strings; `pred_class` is taken as its string form.

Behaviour of the code worth noting:

- The HTML list is not ranked by probability: at `src/app.py:54` it is the
  dict's items in insertion order, that is, in label-list order.
  `ScenarioHtml` shows "boar (0.1)" listed before "other (0.2)".
- A probability vector shorter than the label list is not an error: `zip`
  at `src/app.py:52` and `src/app.py:107` stops at the shorter sequence, so
  the JSON ranking has `min(|classes|, |outputs|)` entries.
- Duplicate labels are not excluded. `dict(zip(...))` keeps one entry per
  label, holding the probability of its last occurrence. `FromPairs` and
  `FromPairsLastWins` state this. The label-order results assume distinct
  labels, as a classifier's label list has.
- `outputs[pred_idx]` follows Python indexing: a negative index counts
  from the end and an index outside `-n .. n-1` raises `IndexError`. The
  model does not require the index to be in range.

## Model

| member | source | states |
|---|---|---|
| Python.Zip | src/app.py:107 | `zip` yields `min(|labels|, |probs|)` pairs, the i-th being `(labels[i], probs[i])` |
| Python.FromPairs | src/app.py:52 | `dict(pairs)` holds each label at most once |
| Python.FromPairsLastWins | src/app.py:52 | in `dict(pairs)` a label is present exactly when it occurs among the pairs, and it holds the probability of its last occurrence |
| Python.FromDistinctPairs | src/app.py:52 | with distinct labels, `dict(zip(...))` holds exactly the zipped pairs, in label-list order |
| Python.Pop | src/app.py:53 | `pop(k)` raises `KeyError(k)` exactly when k is absent; otherwise it returns k's value and the dict without k, one entry shorter, other entries in order |
| Python.WithoutAt | src/app.py:53 | removing the key at position i of a dict leaves the entries before and after i, in order |
| Python.GetWithout | src/app.py:53 | after removing key k0, k0 is absent and every other key keeps its value |
| Python.Index | src/app.py:76 | `outputs[i]` succeeds exactly for `-n <= i < n`, yields `outputs[i]` for `i >= 0` and `outputs[n+i]` for `i < 0`, and otherwise raises `IndexError(i)` |
| StableSort.SortDesc | src/app.py:106-110 | the sort returns a permutation of its input: nothing added, dropped or re-paired |
| StableSort.SortDescSorted | src/app.py:106-110 | the sort's result is non-increasing by probability |
| StableSort.SortDescStable | src/app.py:106-110 | for every probability v, the pairs with probability v keep their input order |
| StableSort.SortDescIsStableSort | src/app.py:106-110 | `SortDesc` meets the full specification of `sorted(key=p[1], reverse=True)`: sorted, a permutation, stable |
| StableSort.StableSortUnique | src/app.py:106-110 | any sequence that is a stable descending sort of the input equals `SortDesc` of it, so the model's order is the one Python produces |
| App.PredictAsJson | src/app.py:102-111 | `predicted_class` is the classifier's label; the ranking has `min(|classes|, |outputs|)` entries and is the zipped pairs stably sorted by descending probability |
| App.JsonKeepsEveryPair | src/app.py:105-110 | every zipped pair, the predicted label's included, occurs in the JSON ranking |
| App.JsonTopIsMax | src/app.py:106-110 | the first entry of the ranking has a probability at least that of every zipped entry |
| App.Others | src/app.py:52-54 | the "other possibilities" fail with `KeyError(pred_class)` exactly when the predicted label is not among the zipped labels; otherwise they list each label at most once |
| App.OthersLookup | src/app.py:52-54 | the predicted label is not among the "other possibilities"; every other zipped label is, with the probability of its last occurrence, and no label outside the zip is |
| App.OthersInLabelOrder | src/app.py:52-54 | with distinct labels, the "other possibilities" are the zipped pairs with the predicted one removed, in label-list order, `n-1` of them |
| App.UiResponse | src/app.py:50-76 | the card fails with the `KeyError` of line 53 first, then with the `IndexError` of line 76; on success it shows the predicted label, the image source, the "other possibilities", and `outputs[pred_idx]` from the raw vector |
| App.HeadlineMatchesPopped | src/app.py:52-76 | when labels are distinct and `classes[pred_idx]` is the predicted label, the card succeeds, its confidence is the value popped from the dict, and it lists the other `n-1` labels |
| App.ScenarioJson | src/app.py:102-111 | labels boar/deer/other with probabilities 0.1/0.7/0.2 and prediction "deer" give the ranking deer, other, boar |
| App.ScenarioHtml | src/app.py:50-76 | the same prediction gives a card with confidence 0.7 and the other possibilities boar, then other, in label-list order |

## Left out

- Image acquisition (`get_bytes`, the upload form read) and image decoding (`open_image`): network and file I/O, not modelled.
- `load_learner` and `learn.predict`: calls into fastai and torch. The classifier's output and the label list are inputs to the model.
- The Starlette routes, form parsing, `RedirectResponse` and the uvicorn start-up: request plumbing.
- The HTML templates of `layout_response`, `ui_response` and the `/` form: the model keeps the values a card shows (`Card`), not its markup.
- The `%.2f%%` formatting of `v*100`: floating-point formatting. Probabilities stay unformatted reals.
- Floating point itself: probabilities are exact reals, so NaN, whose comparisons would break the sort's ordering, does not arise.
- The base64 data URI built for `/upload`: the image source is an opaque string passed through.
- FromPairs: with repeated labels, the position of a label's entry (that of its first occurrence) is not stated; entry order is proved for distinct labels only (`FromDistinctPairs`).
- Concurrency between requests: each request works on its own values, and the label list is read-only.
