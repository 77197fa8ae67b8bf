includes = ["**/*.dfy"]

# Every proof is written out; automatic induction on lemmas is off.
[options]
manual-lemma-induction = true
