# Gerente de Ventas — verified model of the reconciliation engine

This project models the data engine inside `app1.py`, a sales dashboard for one
month of sales. It brings four tables together:
- the month's sales lines (VENTAS);
- the price list (PRECIOS);
- the denied-demand lines (NEGADOS), i.e. orders that could not be served;
- the customer list.

From these it computes the dashboard's figures:
- the pre-tax value of every sales line;
- the price list reduced to one entry per article;
- the valued denied demand, with its breakdown by article;
- the per-customer sales aggregate on the map;
- the customers in scope who bought nothing;
- the KPI cards.

Tables are sequences of records. A numeric cell is `Option<real>`, where `None` is pandas' NaN after `to_numeric(errors="coerce")`. A text cell is `Option<string>`.

Modules, one per file:
- `Wrappers`: `Option` and `Result`. A loader's `(None, reason)` return is `Err(reason)`.
- `Text`: Python's `str.strip`, `str.lower` on ASCII and Latin-1, substring search and Python's string order.
- `Ordering`: `sorted(set(...))` over a strict total order, a descending insertion sort, and column sums.
- `Grouping`: per-key sums and counts. Grouping by a complete list of distinct keys keeps the total and the row count.
- `Helpers`: `to_num`, `clean_text`, `normalize_int_series`, `pick_sku_col`, `make_color_map` and the sorted selector lists.
- `Ventas`: `load_ventas` as a method over the sheet's rows. The pre-tax rule is chosen once per batch.
- `Precios`: `load_precios_serur` as a method. It checks the schema, keeps only the type-1 price rows when there are any, and reduces to the maximum price per article.
- `Negados`: `load_negados_serur` and the denied-demand valuation. It covers the salesperson scope, the left join to prices, the missing-price count, and the breakdown with percentages.
- `Territorio`: the filtered sales lines, the `(cve_cte, vendedor)` aggregation, the join to customers, the top-N cut, the no-sale complement, the search box and the unique-SKU count.
- `Kpi`: total, customers with a sale, average ticket, assigned customers, coverage and denied-vs-sold percentage. Each division is guarded. `Territory` chains the territorial steps and the NEGADOS block in the screen's order.

The loaders rewrite their tables column by column. They are methods with loops, proved against specification functions (`LoadRow`, `CoerceRow`, `LoadDeniedRow`, `ReducePrices`). The dashboard's chained pandas expressions are functions, with lemmas relating them.

Points where the code behaves differently from what one might expect, modelled as written:
- Coverage might be expected to stay within [0, 100]. As written, coverage in "Elegir" mode counts the customers the selected salespeople sold to, against the customers *assigned* to them, and can exceed 100 (`Kpi.ElegirCoverageCanExceedHundred`). Only when every customer with a sale is in scope is it bounded (`Kpi.CoverageBounded`, `Kpi.TodosCoverageBounded`).
- `pct_negado_vs_vendido` has no upper bound: the denied value can exceed the value sold.
- Denied lines are valued whatever the sign of their quantity, as the code does.
- A denied line whose article is missing from the price list gets price 0. Its description is "nan", because `astype(str)` renders the missing value before `fillna("")` can act.

## Model

| member | source | states |
|---|---|---|
| Text.TrimSpec | app1.py:49-50 | `strip` keeps the infix of `s` left after dropping a leading and a trailing white-space run; the result starts and ends with a non-space; it is empty exactly when `s` is all white space |
| Text.TrimLeftSpec | app1.py:49-50 | `lstrip` removes exactly a leading white-space run and stops at a non-space |
| Text.TrimRightSpec | app1.py:49-50 | `rstrip` removes exactly a trailing white-space run and stops at a non-space |
| Text.TrimIdempotent | app1.py:437 | stripping an already stripped salesperson name changes nothing |
| Text.LowerChar | app1.py:613 | an ASCII or Latin-1 capital (`À`-`Þ` except `×`) becomes its small letter, 32 code points above, which is no longer a capital; every other character is left alone |
| Text.Lower | app1.py:613 | lower-casing keeps the length and lowers each character on its own |
| Text.LowerSurname | app1.py:613 | "MUÑOZ" lower-cases to "muñoz", as in Python |
| Text.Contains | app1.py:615-616 | the search test holds exactly when the query occurs at some position of the text |
| Text.LexTransitive | app1.py:336 | Python's string order is transitive |
| Text.LexTotal | app1.py:336 | two different strings are always ordered one way or the other |
| Ordering.LexStrictTotal | app1.py:336 | Python's string order is a strict total order, so `sorted` of distinct strings is well defined |
| Ordering.SortedSet | app1.py:439 | `sorted(unique(...))` is strictly ascending, has exactly the input's elements and is no longer than the input |
| Ordering.SortDesc | app1.py:461 | the descending sort is non-increasing in its key and a permutation of its input |
| Ordering.SortDescSum | app1.py:461 | sorting does not change a column's sum |
| Ordering.SortDescDistinct | app1.py:459-461 | sorting rows whose identities are pairwise distinct keeps them pairwise distinct |
| Ordering.HeadOutranksTail | app1.py:403 | after a descending sort every row of the head is worth at least every row of the tail, and head and tail together are the whole |
| Grouping.PartitionSum | app1.py:386-387 | summing per-key sums over a complete list of distinct keys gives the column total |
| Grouping.PartitionCount | app1.py:389 | per-key counts over a complete list of distinct keys add up to the number of rows |
| Grouping.RowsWhere | app1.py:386 | the rows of one key are exactly the rows carrying that key, as many as the key's count |
| Helpers.CleanText | app1.py:49-50 | a missing value and an all-space string clean to ""; any other value cleans to its stripped text |
| Helpers.RoundHalfEven | app1.py:76-78 | rounding lands within 0.5 of the value and, on a tie, on the even integer |
| Helpers.NormalizeInt | app1.py:76-78 | a number normalises to an integer within 0.5 of it, and an exact half goes to the even neighbour; NA stays NA |
| Helpers.NormalizeIntOfInteger | app1.py:76-78 | an integral number normalises to itself |
| Helpers.HeaderIndex | app1.py:70 | the header map has an entry for every key some header carries, and maps it to the last header carrying it |
| Helpers.PickColumn | app1.py:68-74 | the lookup returns nothing exactly when no candidate matches any header; otherwise it returns the last header matching the first candidate that matches |
| Helpers.PickSkuCol | app1.py:68-74 | the same with the nine article-code candidates in their priority order |
| Helpers.SkuHeaderNonEmpty | app1.py:378-379 | a header found through an article-code candidate is never "", so `if sku_col:` holds whenever a candidate matches |
| Helpers.Present | app1.py:58 | `dropna` keeps exactly the present values, never more than there are cells |
| Helpers.PresentAppend | app1.py:58 | `dropna` distributes over appending a cell, so the present values keep their input order |
| Helpers.FirstIndex | app1.py:58 | the position returned holds the value and no earlier position does |
| Helpers.Unique | app1.py:58 | `unique` has no repeats, exactly the input's values, and is no longer than the input |
| Helpers.UniqueFirstSeen | app1.py:58 | `unique` lists values in the order of their first appearance |
| Helpers.ColorMap | app1.py:52-59 | exactly the present values get a colour, and the k-th distinct value in first-seen order gets `palette[k mod len]` |
| Helpers.NonBlank | app1.py:336 | keeps exactly the values that `clean_text` does not reduce to "" |
| Helpers.SortedNonBlank | app1.py:336 | the salesperson list is strictly ascending and holds exactly the names with a non-space character |
| Ventas.LoadRow | app1.py:116-135 | a loaded row carries the stripped codes, the normalised salesperson number and the value of the batch's rule |
| Ventas.LoadVentas | app1.py:107-137 | one sale per row; if any coerced total is nonzero every row is valued total / 1.16, a zero-total row too, otherwise every row is valued cantidad × importe |
| Precios.Trunc | app1.py:161 | `astype(int)` truncates toward zero |
| Precios.CoerceRow | app1.py:152-161 | the code is stripped ("nan" when missing); a missing price is 0; the description is stripped, "nan" when missing, "" without the column; the price type is truncated, 0 when missing or without the column |
| Precios.Coerced | app1.py:152-161 | one row per sheet row, position by position through those rewrites |
| Precios.PrimaryRows | app1.py:163 | keeps exactly the rows of price type 1 |
| Precios.KeepPrimary | app1.py:160-163 | with a `tip_pre` column and some type-1 row the result is the type-1 rows in sheet order (`PrimaryRows`), and only those; otherwise all rows remain |
| Precios.MaxPrice | app1.py:169 | the price carried is one of the article's prices and no smaller than any of them |
| Precios.FirstDescri | app1.py:167-169 | the description carried is that of the earliest row of the article at the maximum price |
| Precios.ArtCodes | app1.py:168 | lists exactly the article codes of the rows |
| Precios.EntriesFor | app1.py:166-170 | one entry per listed code, with its maximum price and the first description at it |
| Precios.ReducePrices | app1.py:165-171 | one entry per article code present, codes strictly ascending, each with its maximum price and first description at that price |
| Precios.CoerceAll | app1.py:152-163 | the coerced rows, and whether some row has price type 1 |
| Precios.SelectPrimary | app1.py:163 | the loop keeps exactly the type-1 rows, in order |
| Precios.LoadPrecios | app1.py:140-172 | the reason "No encontré columnas cve_art/precio en PRECIOS." exactly when `cve_art` or `precio` is missing, otherwise the reduction of the surviving rows |
| Precios.PrimaryRowsAppend | app1.py:163 | filtering distributes over appending a row |
| Precios.FindEntry | app1.py:449 | a lookup finds an entry of that code, or none exists |
| Precios.ReducedCodesUnique | app1.py:165-171 | the reduced price list has no two entries with the same code |
| Negados.LoadDeniedRow | app1.py:191-193 | the article code is stripped text, the quantity is the coerced expression or 0, the salesperson number is the cell rounded half to even, NA when the cell is |
| Negados.LoadNegados | app1.py:175-195 | the three schema checks in order (cve_art, then (expression), then cve_vnd) with their messages, otherwise one loaded line per row |
| Negados.VendSelStr | app1.py:367 | the selection is stripped name by name |
| Negados.MappedCodes | app1.py:436-439 | exactly the numbers of the sales lines whose salesperson is selected |
| Negados.ParsedCodes | app1.py:441 | exactly the rounded numbers of the selected names that parse as numbers |
| Negados.SelectedCveVnd | app1.py:431-441 | None exactly in "Todos" mode; otherwise strictly ascending numbers, taken from the sales mapping when any sale carries a number, else from the names |
| Negados.FilterScope | app1.py:446-447 | a None scope keeps every line; a list keeps exactly the lines whose present number is in it |
| Negados.FilterScopeAppend | app1.py:446-447 | the filter distributes over appending a line, so every copy of a kept line stays, in input order |
| Negados.FilterScopeCounts | app1.py:446-447 | each line in scope keeps all its copies, any other line none |
| Negados.FilterScopeEmpty | app1.py:446-447 | an empty list of numbers keeps no line |
| Negados.ScopeNarrows | app1.py:446-447 | any explicit scope keeps a sub-collection of what "Todos" keeps |
| Negados.EmptyScopeValuesNothing | app1.py:439-455 | an empty scope values nothing: total 0, no missing prices, no detail |
| Negados.JoinLine | app1.py:449-453 | a line keeps its codes and quantity; unmatched it gets price 0 and description "nan", matched it gets an entry's price and stripped description, the only entry's when codes are unique; its value is quantity × price |
| Negados.Join | app1.py:449 | the left join keeps each denied line exactly once, in order |
| Negados.CountUnpriced | app1.py:455 | the missing-price count is at most the line count and is 0 exactly when no line has a positive quantity without a positive price |
| Negados.CountUnpricedAppend | app1.py:455 | appending a line adds one to the count exactly when that line has a positive quantity and no positive price |
| Negados.AllPricedNoneMissing | app1.py:449-455 | when every denied article has a positive price no line is counted as missing one |
| Negados.GroupRows | app1.py:459-460 | one row per key, carrying the sum of its lines' values; these sum to the per-key total |
| Negados.LineKeys | app1.py:459 | lists exactly the (article, description) pairs of the lines |
| Negados.Grouped | app1.py:458-462 | the breakdown is non-increasing in value and each row carries its group's sum |
| Negados.GroupedKeys | app1.py:459 | the breakdown has a row for each (article, description) pair of the lines and no other |
| Negados.GroupedDistinct | app1.py:459 | no two breakdown rows share an (article, description) pair |
| Negados.GroupedSum | app1.py:458-462 | the breakdown's values add up to the lines' total |
| Negados.WithPct | app1.py:463-466 | each share times the total is the row's value × 100 when the total is positive, otherwise every share is 0 |
| Negados.WithPctSums | app1.py:463-464 | adding shares keeps the values and the shares sum to 100 × the values' sum over the total |
| Negados.PctOfTotal | app1.py:463-464 | shares of a positive total sum to 100 |
| Negados.NegadosBlock | app1.py:443-469 | zero, zero and no detail unless both loaders succeeded, otherwise the valuation over a price list with one entry per code |
| Negados.DetailSumsToTotal | app1.py:301 | the detail's values add up to `negado_valor` and are in non-increasing order |
| Negados.PctSumsToHundred | app1.py:463-464 | the shares add up to 100 when the denied total is positive |
| Negados.PctZeroWithoutTotal | app1.py:465-466 | every share is 0 when the denied total is not positive |
| Territorio.FilterSales | app1.py:368-370 | keeps exactly the lines of selected salespeople, and of selected species only when some species is selected |
| Territorio.FilterSalesAppend | app1.py:368-370 | the filter distributes over appending a line, so every copy of a kept line stays, in input order |
| Territorio.FilterSalesCounts | app1.py:368-370 | each passing line keeps all its copies, any other line none |
| Territorio.SkuCodes | app1.py:380 | exactly the non-empty stripped texts of the column |
| Territorio.SkuUnicos | app1.py:375-380 | a count exactly when one salesperson was chosen explicitly, lines remain and some article-code header matches; it is the number of distinct non-empty codes in the last header matching the first matching candidate |
| Territorio.GroupSpecies | app1.py:388-389 | exactly the species of the group's lines, one per line |
| Territorio.TopSpecies | app1.py:388 | at most ten species, strictly ascending, all from the group; all of them when fewer than ten, otherwise every species left out sorts after the tenth |
| Territorio.SaleKeys | app1.py:386 | lists exactly the (customer, salesperson) pairs of the lines |
| Territorio.GroupCustomers | app1.py:386-390 | one group per key with its value sum, line count and species, whose sums match the per-key totals |
| Territorio.Aggregate | app1.py:385-392 | groups in strictly ascending (customer, salesperson) order, each with its value sum, line count and first ten sorted species |
| Territorio.AggregateKeys | app1.py:386 | every group's (customer, salesperson) pair is that of some line |
| Territorio.AggregateCovers | app1.py:386 | every line's (customer, salesperson) pair has a group |
| Territorio.AggregateKeepsValue | app1.py:387 | grouping keeps the total value |
| Territorio.AggregateKeepsLines | app1.py:389 | the line counts of the groups add up to the number of lines |
| Territorio.ClientesOf | app1.py:394 | exactly the customer records carrying a code, none from an empty sheet |
| Territorio.ClientesOfAppend | app1.py:394 | the records of a code come in sheet order, one per copy |
| Territorio.Pair | app1.py:394 | a group paired with each of its customer records, one row per record, in order |
| Territorio.PairValue | app1.py:394 | a group's rows carry its value once per customer record |
| Territorio.JoinClientes | app1.py:394 | a joined row is a group with a customer record of the same code, and each such pair appears |
| Territorio.JoinClientesAppend | app1.py:394 | the join distributes over groups: an appended group adds one row per customer record of its code |
| Territorio.JoinValue | app1.py:394 | the joined total counts each group's value once per customer record of its code (`RecordWeightedValue`) |
| Territorio.JoinKeepsValue | app1.py:394 | with one record per customer code the join keeps the groups' total |
| Territorio.TopRows | app1.py:402-403 | no cut for n = 0 or no rows; otherwise min(n, rows) rows, non-increasing in value, taken from the input |
| Territorio.TopRowsKeepHighest | app1.py:403 | every kept row is worth at least every dropped row |
| Territorio.VentasCtes | app1.py:405 | exactly the customer codes left among the sales rows |
| Territorio.ClientesScope | app1.py:408 | every customer in "Todos" mode, else exactly those assigned to a selected salesperson |
| Territorio.KeepClientes | app1.py:408 | keeps exactly the customers passing the test, none from an empty sheet |
| Territorio.KeepClientesAppend | app1.py:408 | the filter keeps sheet order and copies: an appended customer is appended when it passes |
| Territorio.ClientesScopeAppend | app1.py:408 | the chosen salespeople's scope keeps sheet order and copies |
| Territorio.NoSales | app1.py:410 | the customers in scope whose code has no sale: a subset of the scope, disjoint from the sale codes, and complete |
| Territorio.NoSalesAppend | app1.py:410 | the no-sale list keeps the scope's order and copies |
| Territorio.NoSalesShown | app1.py:411-413 | a prefix of the no-sale list, cut to the maximum only when the layer is on and the list is longer |
| Territorio.Search | app1.py:612-617 | a blank query keeps everyone; otherwise exactly the customers whose lower-cased name or code contains the stripped, lower-cased query |
| Territorio.SearchFindsAccentedName | app1.py:612-617 | the query " muñoz " finds the customer named "MUÑOZ" |
| Territorio.SearchAppend | app1.py:612-617 | a search keeps the table's order and copies |
| Kpi.TicketProm | app1.py:420 | 0 without customers, otherwise ticket × customers = total |
| Kpi.Cobertura | app1.py:422 | 0 without assigned customers, otherwise coverage × assigned = with-sale × 100; never negative, and at most 100 when with-sale ≤ assigned |
| Kpi.PctNegado | app1.py:471 | 0 unless the sales total is positive, otherwise share × sales = denied × 100 |
| Kpi.Codes | app1.py:421 | exactly the customer codes of the list |
| Kpi.CodeCount | app1.py:419 | the number of distinct customer codes with a sale, at most the number of rows |
| Kpi.ScopeCount | app1.py:421 | the number of distinct customer codes in scope, at most the number of customers |
| Kpi.ComputeKpis | app1.py:418-422 | total and distinct counts over the rows left after the cut, and average ticket, coverage and denied share as the guarded divisions above |
| Kpi.Territory | app1.py:355-447 | each field is its step applied to the previous ones in the screen's order: the filtered lines, the top-N cut of the joined aggregation, the scope, the no-sale list of the cut rows and its shown prefix, the NEGADOS block on the selected salesperson numbers, and the KPIs of the cut rows, scope and denied total; hence the no-sale list lies within the scope, shares no code with any kept row, and holds every customer in scope without one |
| Kpi.VentaTotalIsLinesTotal | app1.py:385-418 | without a cut and with one record per customer code, the sales total is the filtered lines' total |
| Kpi.CoverageBounded | app1.py:422 | coverage is within [0, 100] whenever every customer with a sale is in scope |
| Kpi.TodosCoverageBounded | app1.py:408-422 | in "Todos" mode coverage is within [0, 100], with or without the cut |
| Kpi.ElegirCoverageCanExceedHundred | app1.py:408-422 | in "Elegir" mode two sales to customers assigned elsewhere against one assigned customer give coverage 200 |

## Left out

- The Streamlit interface is not modelled, and neither are its results: login, menu, widgets, session state, view switching, `st.stop` when there are no salespeople, the formatting of metrics and the detail screen's table. None of these compute a figure.
- Map rendering is not modelled: folium markers, heatmap, layers and the map centre (a floating-point mean). `radius_from_sale` is floating-point square-root styling with no business rule.
- Fetching and caching are not modelled: `gviz_csv_url`, `pd.read_csv` and `st.cache_data`. They are I/O. The sheets arrive as records with their headers already stripped and lower-cased (`df.columns.str.strip().str.lower()`).
- `pd.to_numeric` and `pd.to_datetime` internals are not modelled. Numeric cells arrive already coerced. Line 441 parses salesperson names as numbers through a parameter `toNumeric`. `fecha` is parsed but never used afterwards, so it is not modelled.
- `load_clientes` is outside the modelled core. Customers arrive already loaded, with stripped codes and present coordinates.
- The Pareto concentration and month-to-date comparison do not exist in `app1.py`.
- Tie order of single-column descending sorts (the breakdown, the top-N cut) is not modelled. pandas uses an unstable sort there, which leaves the order of equal values unspecified; `Ordering.SortDesc` happens to put rows with equal keys in reverse input order, and every stated property holds for any order of equal values.
- The `", ".join` of the species list is not modelled. `Territorio.TopSpecies` yields the list that is joined.
- Text.Lower, Text.LowerChar, Territorio.Search: capitals beyond ASCII and Latin-1 (Greek, Cyrillic, `Ÿ`, and the few whose lower-case form is longer) are left as they are; Python lower-cases them too.
- Text.Contains, Territorio.Search: `str.contains` is a plain substring test here, where pandas treats the query as a regular expression. The two differ only for queries holding regular-expression metacharacters such as `.`, `*` or `(`.
- The `vendedor_x`/`vendedor_y` renaming after the customer join is not modelled. The customer table's `vendedor` column is already renamed `vendedor_cliente`, so no collision arises.
- The cells of the article-code column in `sku_unicos` are passed as a function of the column name, because sales lines here carry only the columns the dashboard uses.
- Helpers.MakeColorMap: the 18 palette entries are not proved pairwise distinct. This is a fact about the constant, not about the mapping.
- Negados.Valuate is a plain composition and has no contract of its own. Its properties are the lemmas above.
- Negados.Join takes the first price entry of a code, where a pandas left merge repeats a line once per matching entry. The two agree on price lists with one entry per code, which `load_precios_serur` always yields (`Precios.ReducedCodesUnique`); `Negados.NegadosBlock` requires it.
- Machine integers and floating point are not modelled. Money is `real`, and counts are unbounded `nat`.
